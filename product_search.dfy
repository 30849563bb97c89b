/** The read side of the `products` table: keyword search, the recency listing and
    the text block the chat prompt embeds. A query sees the table as the sequence
    of its rows in the store's scan order. */
module ProductSearch {
  import opened Wrappers
  import Text
  import opened ProductService

  const NoProductsText: string := "No products available."
  const NoVendorText: string := "No vendor"
  const NoUrlText: string := "No URL"
  const Rupee: string := "\U{20B9}"

  /** `listing` holds exactly the rows of `table`, each once. */
  ghost predicate Lists(listing: seq<Product>, table: map<string, Product>) {
    && (forall i :: 0 <= i < |listing| ==> listing[i].productId in table && table[listing[i].productId] == listing[i])
    && (forall k :: k in table ==> table[k] in listing)
    && (forall i, j :: 0 <= i < j < |listing| ==> listing[i].productId != listing[j].productId)
  }

  predicate IsLive(row: Product) {
    row.status != DeletedStatus
  }

  /** The rows whose status is not `deleted`, in scan order. */
  function LiveRows(rows: seq<Product>): (r: seq<Product>)
    ensures |r| <= |rows|
    ensures forall x :: x in r <==> x in rows && IsLive(x)
    ensures forall x :: multiset(r)[x] == if IsLive(x) then multiset(rows)[x] else 0
  {
    if rows == [] then []
    else
      var rest := LiveRows(rows[1..]);
      assert rows == [rows[0]] + rows[1..];
      if IsLive(rows[0]) then [rows[0]] + rest else rest
  }

  /** The `ILIKE '%term%'` filter on the four text columns: the term occurs in the
      title, the vendor, the product type or the tags, ignoring letter case. */
  function MatchesTerm(row: Product, term: string): (matched: bool)
    ensures matched <==>
      || (exists i :: Text.OccursAt(Text.Lower(row.title), Text.Lower(term), i))
      || (exists i :: Text.OccursAt(Text.Lower(row.vendor), Text.Lower(term), i))
      || (exists i :: Text.OccursAt(Text.Lower(row.productType), Text.Lower(term), i))
      || (exists i :: Text.OccursAt(Text.Lower(row.tags), Text.Lower(term), i))
  {
    var t := Text.Lower(term);
    || Text.Contains(Text.Lower(row.title), t)
    || Text.Contains(Text.Lower(row.vendor), t)
    || Text.Contains(Text.Lower(row.productType), t)
    || Text.Contains(Text.Lower(row.tags), t)
  }

  /** The live rows that match the term, in scan order. */
  function MatchingRows(rows: seq<Product>, term: string): (r: seq<Product>)
    ensures |r| <= |rows|
    ensures forall x :: x in r <==> x in rows && IsLive(x) && MatchesTerm(x, term)
    ensures forall x :: multiset(r)[x] == if IsLive(x) && MatchesTerm(x, term) then multiset(rows)[x] else 0
  {
    if rows == [] then []
    else
      var rest := MatchingRows(rows[1..], term);
      assert rows == [rows[0]] + rows[1..];
      if IsLive(rows[0]) && MatchesTerm(rows[0], term) then [rows[0]] + rest else rest
  }

  lemma {:induction false} MatchingIgnoresTermCase(rows: seq<Product>, term: string)
    ensures MatchingRows(rows, Text.Lower(term)) == MatchingRows(rows, term)
  {
    Text.LowerIsIdempotent(term);
    if rows != [] {
      MatchingIgnoresTermCase(rows[1..], term);
    }
  }

  /** Most recently updated first: no row was updated after the row before it. */
  predicate NewestFirst(rows: seq<Product>) {
    forall i :: 0 < i < |rows| ==> rows[i - 1].updatedAt >= rows[i].updatedAt
  }

  function InsertByRecency(row: Product, sorted: seq<Product>): (r: seq<Product>)
    requires NewestFirst(sorted)
    ensures NewestFirst(r)
    ensures multiset(r) == multiset(sorted) + multiset{row}
    ensures r != [] && (r[0] == row || (sorted != [] && r[0] == sorted[0]))
  {
    if sorted == [] || row.updatedAt >= sorted[0].updatedAt then [row] + sorted
    else
      var rest := InsertByRecency(row, sorted[1..]);
      assert sorted == [sorted[0]] + sorted[1..];
      [sorted[0]] + rest
  }

  /** The rows ordered by update time, most recent first. */
  function SortByRecency(rows: seq<Product>): (r: seq<Product>)
    ensures NewestFirst(r)
    ensures multiset(r) == multiset(rows)
  {
    if rows == [] then []
    else
      assert rows == [rows[0]] + rows[1..];
      InsertByRecency(rows[0], SortByRecency(rows[1..]))
  }

  /** The first `n` rows, or all of them when there are fewer. */
  function Take(rows: seq<Product>, n: nat): (r: seq<Product>)
    ensures |r| == if n < |rows| then n else |rows|
    ensures r == rows[..|r|]
  {
    if n < |rows| then rows[..n] else rows
  }

  /** The query is absent, empty or only whitespace: the cases that fall back to
      the recency listing. */
  function IsBlank(query: Option<string>): (blank: bool)
    ensures blank <==> query == None || Text.AllWhitespace(query.value)
  {
    if query == None then true
    else
      Text.TrimIsEmptyIffBlank(query.value);
      query.value == "" || Text.Trim(query.value) == ""
  }

  /** Every row that `r` leaves out of `pool` is at most as recent as every row `r` keeps. */
  predicate KeepsNewest(r: seq<Product>, pool: seq<Product>) {
    forall x, y :: x in r && y in multiset(pool) - multiset(r) ==> y.updatedAt <= x.updatedAt
  }

  /** In a newest-first sequence, no row is more recent than any row before it. */
  lemma {:induction false} NewestFirstIsPairwise(rows: seq<Product>)
    requires NewestFirst(rows)
    ensures forall i, j :: 0 <= i <= j < |rows| ==> rows[i].updatedAt >= rows[j].updatedAt
  {
    if |rows| > 1 {
      var tail := rows[1..];
      assert NewestFirst(tail) by {
        forall i | 0 < i < |tail| ensures tail[i - 1].updatedAt >= tail[i].updatedAt {
          assert tail[i - 1] == rows[i] && tail[i] == rows[i + 1];
        }
      }
      NewestFirstIsPairwise(tail);
      forall i, j | 0 <= i <= j < |rows| ensures rows[i].updatedAt >= rows[j].updatedAt {
        if 0 < i {
          assert rows[i] == tail[i - 1] && rows[j] == tail[j - 1];
        } else if 0 < j {
          assert rows[1] == tail[0] && rows[j] == tail[j - 1];
        }
      }
    }
  }

  /** What a prefix leaves out of a sequence is the rest of the sequence. */
  lemma PrefixLeavesRest(rows: seq<Product>, k: nat)
    requires k <= |rows|
    ensures multiset(rows[..k]) <= multiset(rows)
    ensures multiset(rows) - multiset(rows[..k]) == multiset(rows[k..])
  {
    assert rows == rows[..k] + rows[k..];
  }

  /** The first `n` rows of a newest-first sequence are the newest ones in it. */
  lemma NewestPrefix(sorted: seq<Product>, n: nat)
    requires NewestFirst(sorted)
    ensures multiset(Take(sorted, n)) <= multiset(sorted)
    ensures KeepsNewest(Take(sorted, n), sorted)
  {
    var r := Take(sorted, n);
    var k := |r|;
    PrefixLeavesRest(sorted, k);
    NewestFirstIsPairwise(sorted);
    forall x, y | x in r && y in multiset(sorted) - multiset(r) ensures y.updatedAt <= x.updatedAt {
      var i :| 0 <= i < k && r[i] == x;
      assert y in sorted[k..];
      var j :| k <= j < |sorted| && sorted[j] == y;
      assert sorted[i] == x;
    }
  }

  /** The `limit` most recently updated live rows. */
  function RecentRows(rows: seq<Product>, limit: nat): (r: seq<Product>)
    ensures |r| <= limit
    ensures NewestFirst(r)
    ensures forall x :: x in r ==> x in rows && IsLive(x)
    ensures |r| == if limit < |LiveRows(rows)| then limit else |LiveRows(rows)|
    ensures multiset(r) <= multiset(LiveRows(rows))
    ensures KeepsNewest(r, LiveRows(rows))
  {
    var live := LiveRows(rows);
    var sorted := SortByRecency(live);
    assert |sorted| == |multiset(sorted)| == |multiset(live)| == |live|;
    var r := Take(sorted, limit);
    NewestPrefix(sorted, limit);
    assert multiset(sorted) == multiset(live);
    forall x | x in r ensures x in rows && IsLive(x) {
      assert x in multiset(r);
      assert x in multiset(live);
      assert x in live;
    }
    r
  }

  /** The keyword search; `failed` is a query error reported by the store. */
  function SearchProducts(configured: bool, rows: seq<Product>, query: Option<string>, limit: nat, failed: bool): (r: seq<Product>)
    ensures !configured || failed ==> r == []
    ensures |r| <= limit
    ensures forall x :: x in r ==> x in rows && IsLive(x)
    ensures IsBlank(query) ==> NewestFirst(r)
    ensures configured && !failed && IsBlank(query) ==> r == RecentRows(rows, limit)
    ensures configured && !failed && !IsBlank(query) ==>
      multiset(r) <= multiset(MatchingRows(rows, Text.Trim(query.value)))
    ensures configured && !failed && !IsBlank(query) ==>
      |r| <= |MatchingRows(rows, Text.Trim(query.value))| && r == MatchingRows(rows, Text.Trim(query.value))[..|r|]
    ensures !IsBlank(query) ==> forall x :: x in r ==> MatchesTerm(x, Text.Trim(query.value))
    ensures configured && !failed && !IsBlank(query) ==>
      |r| == if limit < |MatchingRows(rows, Text.Trim(query.value))| then limit else |MatchingRows(rows, Text.Trim(query.value))|
  {
    if !configured || failed then []
    else if IsBlank(query) then RecentRows(rows, limit)
    else
      var matching := MatchingRows(rows, Text.Trim(query.value));
      var r := Take(matching, limit);
      PrefixLeavesRest(matching, |r|);
      r
  }

  /** The recency listing; `failed` is a query error reported by the store. */
  function GetAllProducts(configured: bool, rows: seq<Product>, limit: nat, failed: bool): (r: seq<Product>)
    ensures !configured || failed ==> r == []
    ensures |r| <= limit && NewestFirst(r)
    ensures forall x :: x in r ==> x in rows && IsLive(x)
    ensures configured && !failed ==> |r| == if limit < |LiveRows(rows)| then limit else |LiveRows(rows)|
    ensures configured && !failed ==> multiset(r) <= multiset(LiveRows(rows)) && KeepsNewest(r, LiveRows(rows))
  {
    if !configured || failed then [] else RecentRows(rows, limit)
  }

  /** The match is case-insensitive, so lower-casing the query first (as the chat
      route does) changes nothing in the result. */
  lemma SearchIgnoresQueryCase(configured: bool, rows: seq<Product>, query: string, limit: nat, failed: bool)
    ensures SearchProducts(configured, rows, Some(Text.Lower(query)), limit, failed)
         == SearchProducts(configured, rows, Some(query), limit, failed)
  {
    var lowered := Text.Lower(query);
    var t := Text.Trim(query);
    Text.TrimLower(query);
    assert |Text.Lower(t)| == |t| && |lowered| == |query|;
    assert IsBlank(Some(lowered)) == IsBlank(Some(query));
    if configured && !failed && !IsBlank(Some(query)) {
      MatchingIgnoresTermCase(rows, t);
    }
  }

  /** Listing all products is the blank-query search. */
  lemma GetAllIsBlankSearch(configured: bool, rows: seq<Product>, limit: nat, failed: bool, query: Option<string>)
    requires query == None || Text.AllWhitespace(query.value)
    ensures GetAllProducts(configured, rows, limit, failed) == SearchProducts(configured, rows, query, limit, failed)
  {
    if query.Some? {
      Text.TrimIsEmptyIffBlank(query.value);
    }
  }

  /** A query returns no row that a soft delete has marked: after a delete of `p`,
      no search of the table returns a row with that key. */
  lemma DeletedRowIsNeverFound(table: map<string, Product>, p: Payload, now: Timestamp,
                               listing: seq<Product>, query: Option<string>, limit: nat)
    requires ProductKey(p.id).Some?
    requires Lists(listing, DeleteEffect(true, table, p, now, None).rows)
    ensures forall x :: x in SearchProducts(true, listing, query, limit, false) ==> x.productId != ProductKey(p.id).value
  {
    var key := ProductKey(p.id).value;
    var after := DeleteEffect(true, table, p, now, None).rows;
    forall x | x in SearchProducts(true, listing, query, limit, false)
      ensures x.productId != key
    {
      var i :| 0 <= i < |listing| && listing[i] == x;
      assert IsLive(x) && after[x.productId] == x;
    }
  }

  /** `${n}` for a price; number formatting is supplied by the caller. */
  type PriceText = real -> string

  /** The vendor as the context block shows it, with a placeholder when it is empty. */
  function VendorLabel(p: Product): string {
    if p.vendor != "" then p.vendor else NoVendorText
  }

  /** The product URL as the context block shows it, with a placeholder when it is empty. */
  function UrlLabel(p: Product): string {
    if p.productUrl != "" then p.productUrl else NoUrlText
  }

  /** One line of the context block: the title, the vendor in parentheses, the
      lowest price and, when it is higher, the highest price, then the URL. */
  function ProductLine(p: Product, show: PriceText): (line: string)
    ensures Text.OccursAt(line, "- " + p.title, 0)
    ensures Text.OccursAt(line, " (" + VendorLabel(p) + ") - " + Rupee + show(p.priceMin), 2 + |p.title|)
    ensures var priceEnd := 2 + |p.title| + 2 + |VendorLabel(p)| + 4 + |Rupee| + |show(p.priceMin)|;
      && (p.priceMax > p.priceMin ==>
            Text.OccursAt(line, " to " + Rupee + show(p.priceMax) + " - " + UrlLabel(p), priceEnd)
            && |line| == priceEnd + 4 + |Rupee| + |show(p.priceMax)| + 3 + |UrlLabel(p)|)
      && (p.priceMax <= p.priceMin ==>
            Text.OccursAt(line, " - " + UrlLabel(p), priceEnd)
            && |line| == priceEnd + 3 + |UrlLabel(p)|)
    ensures p.priceMax > p.priceMin ==> Text.Contains(line, " to " + Rupee + show(p.priceMax))
  {
    var head := "- " + p.title;
    var middle := " (" + VendorLabel(p) + ") - " + Rupee + show(p.priceMin);
    var range := if p.priceMax > p.priceMin then " to " + Rupee + show(p.priceMax) else "";
    var tail := " - " + UrlLabel(p);
    var line := head + middle + range + tail;
    Text.OccursInConcat([], head, middle + range + tail);
    Text.OccursInConcat(head, middle, range + tail);
    Text.OccursInConcat(head + middle, range + tail, []);
    Text.OccursInConcat(head + middle, range, tail);
    line
  }

  function ProductLines(products: seq<Product>, show: PriceText): (lines: seq<string>)
    ensures |lines| == |products|
    ensures forall i :: 0 <= i < |products| ==> lines[i] == ProductLine(products[i], show)
  {
    seq(|products|, i requires 0 <= i < |products| => ProductLine(products[i], show))
  }

  /** `formatProductsForContext(products)`. */
  function FormatProductsForContext(products: Option<seq<Product>>, show: PriceText): (text: string)
    ensures text == NoProductsText <==> products == None || products.value == []
  {
    if products == None || products.value == [] then NoProductsText
    else
      var lines := ProductLines(products.value, show);
      var text := Text.Join(lines, "\n");
      assert text[..2] == lines[0][..2] == "- ";
      assert text[0] != NoProductsText[0];
      text
  }

  /** A line has no newline when the fields and the price texts have none. */
  lemma ProductLineIsOneLine(p: Product, show: PriceText)
    requires '\n' !in p.title && '\n' !in p.vendor && '\n' !in p.productUrl
    requires '\n' !in show(p.priceMin) && '\n' !in show(p.priceMax)
    ensures '\n' !in ProductLine(p, show)
  {
    var head := "- " + p.title;
    var middle := " (" + VendorLabel(p) + ") - " + Rupee + show(p.priceMin);
    var range := if p.priceMax > p.priceMin then " to " + Rupee + show(p.priceMax) else "";
    var tail := " - " + UrlLabel(p);
    assert '\n' !in head;
    assert '\n' !in middle;
    assert '\n' !in range;
    assert '\n' !in tail;
    var line := ProductLine(p, show);
    assert line == head + middle + range + tail;
  }

  /** The context block has one line per product, in input order: splitting it at
      newlines gives back each product's line. */
  lemma ContextHasOneLinePerProduct(products: seq<Product>, show: PriceText)
    requires products != []
    requires forall i :: 0 <= i < |products| ==>
      '\n' !in products[i].title && '\n' !in products[i].vendor && '\n' !in products[i].productUrl
    requires forall x :: '\n' !in show(x)
    ensures Text.Split(FormatProductsForContext(Some(products), show), '\n') == ProductLines(products, show)
  {
    var lines := ProductLines(products, show);
    forall i | 0 <= i < |lines| ensures '\n' !in lines[i] {
      ProductLineIsOneLine(products[i], show);
    }
    Text.SplitJoin(lines, '\n');
  }
}
