/**
 * The registry-validation stage (lambda/nafdac_validator_container.py): pick
 * a search by registration number or by product name, read the Greenbook
 * results table, turn its rows into product records, fall back to a fixed
 * table when the browser session fails, and store one verification item.
 * The browser session, the clock and the DynamoDB table are inputs; the
 * table is an object whose list of stored items the handler extends.
 */
module NafdacValidator {
  import opened Wrappers
  import opened PyStrings

  // ---------------------------------------------------------------------
  // The validation result

  /** One row of the results table, as the five kept cells. */
  datatype Product = Product(
    productName: string,
    activeIngredients: string,
    productCategory: string,
    nrn: string,
    status: string)

  /** A result either lists products (`found: true`, key `results`) or
      carries a message (`found: false`, key `message`). */
  datatype Listing = Results(products: seq<Product>) | Message(text: string)

  /** The three dictionary shapes `scrape_nafdac_greenbook` returns. */
  datatype ValidationResult =
    /** `{success: false, message}`: there was nothing to search for. */
    | Unsearched(message: string)
    /** The answer read from the Greenbook, echoing the search. */
    | Searched(searchTerm: string, searchType: string, nafdacNumber: Option<string>, listing: Listing)
    /** The answer of the built-in table (`get_dummy_validation_result`). */
    | Fallback(nafdacNumber: Option<string>, listing: Listing)

  /** The `success` key. */
  predicate Success(v: ValidationResult) { !v.Unsearched? }

  /** The `found` key (absent, hence falsy, in an unsearched result). */
  predicate Found(v: ValidationResult) {
    match v
    case Unsearched(_) => false
    case Searched(_, _, _, listing) => listing.Results?
    case Fallback(_, listing) => listing.Results?
  }

  const NoSearchTerm := "No NAFDAC number or product name provided"

  /** The result when neither a number nor a product name was given. */
  const NoTermResult := Unsearched(NoSearchTerm)

  // ---------------------------------------------------------------------
  // scrape_nafdac_greenbook: the search

  /** The input field to fill, the text typed into it, and its description. */
  datatype Search = Search(fieldId: string, term: string, searchType: string)

  /** A number, when there is one, is searched for; otherwise the name. */
  function ChooseSearch(number: Option<string>, name: Option<string>): (s: Search)
    requires Truthy(number) || Truthy(name)
    ensures s.term != ""
    ensures s.fieldId == "search_nrn" <==> Truthy(number)
    ensures Truthy(number) ==> s == Search("search_nrn", number.value, "NAFDAC number")
    ensures !Truthy(number) ==> s == Search("search_product", name.value, "product name")
  {
    if Truthy(number) then Search("search_nrn", number.value, "NAFDAC number")
    else Search("search_product", name.value, "product name")
  }

  /** Python's `a or b` on two optional strings. */
  function Or(a: Option<string>, b: Option<string>): Option<string> {
    if Truthy(a) then a else b
  }

  /** The fallback is asked about exactly the term that was searched for. */
  lemma FallbackTermIsSearchTerm(number: Option<string>, name: Option<string>)
    requires Truthy(number) || Truthy(name)
    ensures Truthy(Or(number, name)) && Or(number, name).value == ChooseSearch(number, name).term
  {
  }

  /** What the browser session ends with: the results table did not appear
      in time; the cell texts of its rows; or any other exception (the
      search field not appearing, a driver error). */
  datatype SessionOutcome = ResultsTimeout | Rows(rows: seq<seq<string>>) | SessionFailed(message: string)

  function NotFoundMessage(searchType: string): string {
    "Product not found in NAFDAC Greenbook (searched by " + searchType + ")"
  }

  // ---------------------------------------------------------------------
  // scrape_nafdac_greenbook: the rows

  /** A row with at least ten cells gives one record: cells 0, 1, 2, 3 and
      9, each stripped of surrounding whitespace. */
  function ProductOf(cells: seq<string>): Product
    requires |cells| >= 10
  {
    Product(Strip(cells[0], IsSpace), Strip(cells[1], IsSpace), Strip(cells[2], IsSpace),
            Strip(cells[3], IsSpace), Strip(cells[9], IsSpace))
  }

  /** The records of one row: one if it is long enough, none otherwise. */
  function RowProducts(cells: seq<string>): seq<Product> {
    if |cells| >= 10 then [ProductOf(cells)] else []
  }

  /** The records of the rows, in page order. */
  function ParsedRows(rows: seq<seq<string>>): seq<Product> {
    if rows == [] then []
    else ParsedRows(rows[..|rows| - 1]) + RowProducts(rows[|rows| - 1])
  }

  /** The loop over the rows, appending one record per long row. */
  method ParseRows(rows: seq<seq<string>>) returns (results: seq<Product>)
    ensures results == ParsedRows(rows)
  {
    results := [];
    var i := 0;
    while i < |rows|
      invariant 0 <= i <= |rows|
      invariant results == ParsedRows(rows[..i])
    {
      assert rows[..i + 1][..i] == rows[..i];
      var cells := rows[i];
      if |cells| >= 10 {
        results := results + [ProductOf(cells)];
      }
      i := i + 1;
    }
    assert rows[..i] == rows;
  }

  /** Parsing a page in two parts gives the records of the first part
      followed by those of the second: page order is kept. */
  lemma {:induction false} ParsedRowsAppend(a: seq<seq<string>>, b: seq<seq<string>>)
    ensures ParsedRows(a + b) == ParsedRows(a) + ParsedRows(b)
    decreases |b|
  {
    if b == [] {
      assert a + b == a;
    } else {
      var init := b[..|b| - 1];
      assert (a + b)[..|a + b| - 1] == a + init;
      ParsedRowsAppend(a, init);
    }
  }

  /** There are never more records than rows. */
  lemma {:induction false} ParsedRowsBound(rows: seq<seq<string>>)
    ensures |ParsedRows(rows)| <= |rows|
  {
    if rows != [] {
      ParsedRowsBound(rows[..|rows| - 1]);
    }
  }

  /** The records are empty exactly when every row is shorter than ten
      cells. */
  lemma {:induction false} ParsedRowsEmpty(rows: seq<seq<string>>)
    ensures ParsedRows(rows) == [] <==> forall i :: 0 <= i < |rows| ==> |rows[i]| < 10
  {
    if rows != [] {
      var init := rows[..|rows| - 1];
      ParsedRowsEmpty(init);
      assert forall i :: 0 <= i < |init| ==> init[i] == rows[i];
    }
  }

  /** Every record is the record of some row with at least ten cells. */
  lemma {:induction false} ParsedRowsOrigin(rows: seq<seq<string>>)
    ensures forall k :: 0 <= k < |ParsedRows(rows)| ==> RecordOfSomeRow(ParsedRows(rows)[k], rows)
  {
    if rows != [] {
      var init, last := rows[..|rows| - 1], rows[|rows| - 1];
      ParsedRowsOrigin(init);
      var r := ParsedRows(rows);
      assert r == ParsedRows(init) + RowProducts(last);
      forall k | 0 <= k < |r|
        ensures RecordOfSomeRow(r[k], rows)
      {
        if k < |ParsedRows(init)| {
          assert RecordOfSomeRow(ParsedRows(init)[k], init);
          var i :| 0 <= i < |init| && |init[i]| >= 10 && ParsedRows(init)[k] == ProductOf(init[i]);
          assert init[i] == rows[i] && r[k] == ParsedRows(init)[k];
        } else {
          assert |last| >= 10 && r[k] == ProductOf(rows[|rows| - 1]);
        }
      }
    }
  }

  /** `p` is the record of one of the rows with at least ten cells. */
  predicate RecordOfSomeRow(p: Product, rows: seq<seq<string>>) {
    exists i :: 0 <= i < |rows| && |rows[i]| >= 10 && p == ProductOf(rows[i])
  }

  /** The fields of a record carry no whitespace at either end. */
  lemma ProductTrimmed(cells: seq<string>)
    requires |cells| >= 10
    ensures var p := ProductOf(cells);
      && Trimmed(p.productName) && Trimmed(p.activeIngredients) && Trimmed(p.productCategory)
      && Trimmed(p.nrn) && Trimmed(p.status)
  {
    StripSlice(cells[0], IsSpace);
    StripSlice(cells[1], IsSpace);
    StripSlice(cells[2], IsSpace);
    StripSlice(cells[3], IsSpace);
    StripSlice(cells[9], IsSpace);
  }

  predicate Trimmed(s: string) {
    s != [] ==> !IsSpace(s[0]) && !IsSpace(s[|s| - 1])
  }

  // ---------------------------------------------------------------------
  // get_dummy_validation_result

  const KnownNumber := "A4-101466"

  const KnownProduct := Product("Paracetamol 500mg Tablets", "Paracetamol", "Drugs", "A4-101466", "Active")

  /** The built-in table: one known registration number. */
  function DummyResult(term: string): ValidationResult {
    if term == KnownNumber then Fallback(Some(term), Results([KnownProduct]))
    else Fallback(Some(term), Message("Product not found in NAFDAC Greenbook"))
  }

  /** The fallback always succeeds, echoes its term, and finds exactly the
      known number, with its single record. */
  lemma DummyResultSpec(term: string)
    ensures var v := DummyResult(term);
      && Success(v) && v.Fallback? && v.nafdacNumber == Some(term)
      && (Found(v) <==> term == KnownNumber)
      && (Found(v) ==> v.listing == Results([KnownProduct]) && KnownProduct.nrn == term)
      && (!Found(v) ==> v.listing == Message("Product not found in NAFDAC Greenbook"))
  {
  }

  // ---------------------------------------------------------------------
  // scrape_nafdac_greenbook

  /** The result of `scrape_nafdac_greenbook` when the browser session for
      a search ends as `session` says. */
  function ScrapeResult(number: Option<string>, name: Option<string>, session: Search -> SessionOutcome): ValidationResult {
    if !Truthy(number) && !Truthy(name) then NoTermResult
    else
      var s := ChooseSearch(number, name);
      match session(s)
      case ResultsTimeout => Searched(s.term, s.searchType, number, Message(NotFoundMessage(s.searchType)))
      case Rows(rows) =>
        var results := ParsedRows(rows);
        Searched(s.term, s.searchType, number,
                 if results != [] then Results(results) else Message(NotFoundMessage(s.searchType)))
      case SessionFailed(_) => DummyResult(Or(number, name).value)
  }

  /** `scrape_nafdac_greenbook`; `sessions` lists the searches a browser
      session was started for. */
  method Scrape(number: Option<string>, name: Option<string>, session: Search -> SessionOutcome)
    returns (v: ValidationResult, sessions: seq<Search>)
    ensures v == ScrapeResult(number, name, session)
    ensures sessions == if Truthy(number) || Truthy(name) then [ChooseSearch(number, name)] else []
  {
    if !Truthy(number) && !Truthy(name) {
      return NoTermResult, [];
    }
    var s := ChooseSearch(number, name);
    sessions := [s];
    var outcome := session(s);
    match outcome
    case ResultsTimeout =>
      v := Searched(s.term, s.searchType, number, Message(NotFoundMessage(s.searchType)));
    case Rows(rows) =>
      var results := ParseRows(rows);
      if results != [] {
        v := Searched(s.term, s.searchType, number, Results(results));
      } else {
        v := Searched(s.term, s.searchType, number, Message(NotFoundMessage(s.searchType)));
      }
    case SessionFailed(_) =>
      v := DummyResult(Or(number, name).value);
  }

  /** The result succeeds exactly when there was something to search for;
      otherwise it is the fixed no-term result. */
  lemma SuccessIffTerm(number: Option<string>, name: Option<string>, session: Search -> SessionOutcome)
    ensures Success(ScrapeResult(number, name, session)) <==> Truthy(number) || Truthy(name)
    ensures !Truthy(number) && !Truthy(name) ==> ScrapeResult(number, name, session) == NoTermResult
  {
    if Truthy(number) || Truthy(name) {
      var s := ChooseSearch(number, name);
      if session(s).SessionFailed? {
        DummyResultSpec(Or(number, name).value);
      }
    }
  }

  /** Once rows are read, the result succeeds, echoes the search and the
      number, and is found exactly when some row gave a record; a found
      result lists the records, a not-found one carries the message. */
  lemma RowsVerdict(number: Option<string>, name: Option<string>, session: Search -> SessionOutcome)
    requires Truthy(number) || Truthy(name)
    requires session(ChooseSearch(number, name)).Rows?
    ensures var s, v := ChooseSearch(number, name), ScrapeResult(number, name, session);
      var results := ParsedRows(session(s).rows);
      && Success(v) && v.Searched?
      && v.searchTerm == s.term && v.searchType == s.searchType && v.nafdacNumber == number
      && (Found(v) <==> results != [])
      && (Found(v) ==> v.listing == Results(results))
      && (!Found(v) ==> v.listing == Message(NotFoundMessage(s.searchType)))
  {
  }

  /** A results table that never appears is a successful not-found result,
      the same as a table with no usable row. */
  lemma TimeoutIsNotFound(number: Option<string>, name: Option<string>,
                          timeout: Search -> SessionOutcome, empty: Search -> SessionOutcome)
    requires Truthy(number) || Truthy(name)
    requires timeout(ChooseSearch(number, name)) == ResultsTimeout
    requires empty(ChooseSearch(number, name)).Rows?
    requires forall i :: 0 <= i < |empty(ChooseSearch(number, name)).rows| ==>
      |empty(ChooseSearch(number, name)).rows[i]| < 10
    ensures var v := ScrapeResult(number, name, timeout);
      && Success(v) && !Found(v)
      && v == ScrapeResult(number, name, empty)
  {
    ParsedRowsEmpty(empty(ChooseSearch(number, name)).rows);
  }

  /** Any other session failure gives the built-in table's answer for the
      searched term. */
  lemma FailureFallsBack(number: Option<string>, name: Option<string>, session: Search -> SessionOutcome)
    requires Truthy(number) || Truthy(name)
    requires session(ChooseSearch(number, name)).SessionFailed?
    ensures ScrapeResult(number, name, session) == DummyResult(ChooseSearch(number, name).term)
  {
    FallbackTermIsSearchTerm(number, name);
  }

  // ---------------------------------------------------------------------
  // store_verification_result

  /** The attribute values of a stored item. */
  datatype Attr = Str(s: string) | Null | Num(n: int) | Validation(v: ValidationResult)

  type Item = map<string, Attr>

  /** Ninety days, in seconds, as the source writes it. */
  const TtlSeconds := 90 * 24 * 60 * 60

  function OptAttr(o: Option<string>): Attr {
    match o
    case Some(s) => Str(s)
    case None => Null
  }

  /** `item` is the record stored for these values at time `now`: the five
      fixed keys, and `nafdacNumber` exactly when the number is truthy; the
      item expires 7776000 seconds (ninety days) after `now`. */
  predicate IsItemFor(item: Item, verificationId: string, timestamp: string, imageKey: Option<string>,
                      number: Option<string>, v: ValidationResult, now: int)
  {
    && item.Keys == {"verificationId", "timestamp", "imageKey", "validationResult", "ttl"}
                    + (if Truthy(number) then {"nafdacNumber"} else {})
    && item["verificationId"] == Str(verificationId)
    && item["timestamp"] == Str(timestamp)
    && item["imageKey"] == OptAttr(imageKey)
    && item["validationResult"] == Validation(v)
    && item["ttl"] == Num(now + 7776000)
    && (Truthy(number) ==> item["nafdacNumber"] == Str(number.value))
  }

  /** The values determine the item. */
  lemma ItemDetermined(a: Item, b: Item, verificationId: string, timestamp: string, imageKey: Option<string>,
                       number: Option<string>, v: ValidationResult, now: int)
    requires IsItemFor(a, verificationId, timestamp, imageKey, number, v, now)
    requires IsItemFor(b, verificationId, timestamp, imageKey, number, v, now)
    ensures a == b
  {
    assert forall k :: k in a ==> a[k] == b[k];
  }

  /** The item construction of `store_verification_result`: the base
      dictionary, then `nafdacNumber` added when the number is truthy. */
  method BuildItem(verificationId: string, timestamp: string, imageKey: Option<string>,
                   number: Option<string>, v: ValidationResult, now: int)
    returns (item: Item)
    ensures IsItemFor(item, verificationId, timestamp, imageKey, number, v, now)
  {
    item := map["verificationId" := Str(verificationId), "timestamp" := Str(timestamp),
                "imageKey" := OptAttr(imageKey), "validationResult" := Validation(v),
                "ttl" := Num(now + TtlSeconds)];
    if Truthy(number) {
      item := item["nafdacNumber" := Str(number.value)];
    }
  }

  /** The DynamoDB table, as the items written to it in order. */
  class VerificationTable {
    var items: seq<Item>

    constructor ()
      ensures items == []
    {
      items := [];
    }

    /** `put_item`: the item is stored, or the write fails with `fault` and
        nothing is stored. */
    method PutItem(item: Item, fault: Option<string>)
      modifies this
      ensures fault.None? ==> items == old(items) + [item]
      ensures fault.Some? ==> items == old(items)
    {
      if fault.None? {
        items := items + [item];
      }
    }
  }

  // ---------------------------------------------------------------------
  // lambda_handler

  /** The request body; a missing key reads as None. */
  datatype ValidatorRequest = ValidatorRequest(
    verificationId: Option<string>,
    timestamp: Option<string>,
    imageKey: Option<string>,
    nafdacNumber: Option<string>,
    productName: Option<string>)

  /** The JSON body of the handler's response. */
  datatype ValidatorBody =
    | Verified(verificationId: string, timestamp: string, imageKey: Option<string>,
               nafdacNumber: Option<string>, validationResult: ValidationResult)
    | ErrorBody(error: string)

  datatype ValidatorResponse = ValidatorResponse(statusCode: int, body: ValidatorBody)

  const MissingFields := "Missing required fields"

  /** The validation result the handler stores: a scrape when there is a
      term, the fixed no-term result otherwise. */
  function HandlerValidation(request: ValidatorRequest, session: Search -> SessionOutcome): ValidationResult {
    if Truthy(request.nafdacNumber) || Truthy(request.productName) then
      ScrapeResult(request.nafdacNumber, request.productName, session)
    else NoTermResult
  }

  /** The handler's own no-term branch agrees with the scrape's guard. */
  lemma HandlerValidationIsScrape(request: ValidatorRequest, session: Search -> SessionOutcome)
    ensures HandlerValidation(request, session) == ScrapeResult(request.nafdacNumber, request.productName, session)
  {
    SuccessIffTerm(request.nafdacNumber, request.productName, session);
  }

  /** `lambda_handler`, with the clock reading `now`, the browser session and
      the outcome of `put_item` (`putFault`) as parameters. `sessions` lists
      the browser searches made and `writes` the items passed to `put_item`,
      whether or not the write succeeded. */
  method LambdaHandler(request: ValidatorRequest, now: int, session: Search -> SessionOutcome,
                       table: VerificationTable, putFault: Option<string>)
    returns (resp: ValidatorResponse, sessions: seq<Search>, writes: seq<Item>)
    modifies table
    ensures !Truthy(request.verificationId) || !Truthy(request.timestamp) ==>
      && resp == ValidatorResponse(400, ErrorBody(MissingFields))
      && sessions == [] && writes == [] && table.items == old(table.items)
    ensures Truthy(request.verificationId) && Truthy(request.timestamp) ==>
      var v := HandlerValidation(request, session);
      && sessions == (if Truthy(request.nafdacNumber) || Truthy(request.productName)
                      then [ChooseSearch(request.nafdacNumber, request.productName)] else [])
      && |writes| == 1
      && IsItemFor(writes[0], request.verificationId.value, request.timestamp.value,
                   request.imageKey, request.nafdacNumber, v, now)
      && (putFault.Some? ==>
            resp == ValidatorResponse(500, ErrorBody(putFault.value)) && table.items == old(table.items))
      && (putFault.None? ==>
            && table.items == old(table.items) + writes
            && resp == ValidatorResponse(200, Verified(request.verificationId.value, request.timestamp.value,
                                                      request.imageKey, request.nafdacNumber, v)))
  {
    if !Truthy(request.verificationId) || !Truthy(request.timestamp) {
      return ValidatorResponse(400, ErrorBody(MissingFields)), [], [];
    }
    var v;
    if Truthy(request.nafdacNumber) || Truthy(request.productName) {
      v, sessions := Scrape(request.nafdacNumber, request.productName, session);
    } else {
      v, sessions := NoTermResult, [];
    }
    var item := BuildItem(request.verificationId.value, request.timestamp.value, request.imageKey,
                          request.nafdacNumber, v, now);
    writes := [item];
    table.PutItem(item, putFault);
    if putFault.Some? {
      return ValidatorResponse(500, ErrorBody(putFault.value)), sessions, writes;
    }
    resp := ValidatorResponse(200, Verified(request.verificationId.value, request.timestamp.value,
                                            request.imageKey, request.nafdacNumber, v));
  }
}
