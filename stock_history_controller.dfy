/**
 * The decision the stock history endpoints make for one request: a chain of guards with a
 * fixed precedence (missing key, wrong key, reversed dates), then one map entry per
 * requested company code, then the content type chosen from the `format` parameter.
 *
 * The persistence layer is reduced to two lookup functions (StockService). The collection
 * step is modelled twice: CollectAsWritten is what `Collectors.toMap` does (it throws on a
 * null value and on a repeated key, and the exception handler turns that into a 500), and
 * CollectIntended is what the "companies not found" check after it was written for (a
 * missing company kept as a null value). GetStocks, used by the endpoints, is built on the
 * intended collection; GetStocksAsWritten on the actual one.
 */
module StockHistoryController {
  import opened Wrappers

  /** A calendar date as its day number; `isAfter` is the order of day numbers. */
  datatype LocalDate = LocalDate(epochDay: int) {
    predicate IsAfter(other: LocalDate)
    {
      epochDay > other.epochDay
    }
  }

  /** A row of the company table. */
  datatype Company = Company(companyCode: string, companyName: string)

  /** A row of the price history table. */
  datatype StocksHistory = StocksHistory(id: int, companyCode: string, tradeDate: LocalDate, closePrice: int)

  /** One line of a successful response. */
  datatype StockResponse = StockResponse(companyName: string, tradeDate: LocalDate, closingPrice: int)

  /**
   * The two lookups of the service layer: the company with a code (None where the
   * repository returns null), and the history rows of a code between two dates, in the
   * order the repository returns them.
   */
  datatype StockService = StockService(
    getCompanyByCode: string -> Option<Company>,
    getStocksHistory: (string, LocalDate, LocalDate) -> seq<StocksHistory>)

  datatype MediaType = ApplicationJson | ApplicationXml

  /** The response body: a status word, a message, and the data map of a success. */
  datatype ApiResponse = ApiResponse(status: string, message: string, data: Option<map<string, seq<StockResponse>>>)

  /**
   * An HTTP response: its status code, the content type the controller sets (None where it
   * leaves the choice to the framework), and its body.
   */
  datatype Response = Response(httpStatus: nat, contentType: Option<MediaType>, body: ApiResponse)

  function ErrorResponse(httpStatus: nat, message: string): Response
  {
    Response(httpStatus, None, ApiResponse("error", message, None))
  }

  const MissingApiKey: Response := ErrorResponse(400, "API Key is missing")
  const InvalidApiKey: Response := ErrorResponse(403, "Invalid API Key")
  const StartAfterEnd: Response := ErrorResponse(400, "startDate cannot be after endDate")
  const CompaniesNotFound: Response := ErrorResponse(404, "One or more companies not found")

  /** What the global exception handler answers for any exception escaping the controller. */
  const InternalServerError: Response := ErrorResponse(500, "Internal Server Error")

  function Success(format: string, data: map<string, seq<StockResponse>>): Response
  {
    Response(200, Some(ContentTypeFor(format)), ApiResponse("success", "Data fetched successfully", Some(data)))
  }

  // ---------------------------------------------------------------------------
  // Parameters
  // ---------------------------------------------------------------------------

  /** The value of the `format` parameter when it is absent or empty. */
  const DefaultFormat: string := "json"

  /** The format the endpoints use: the parameter when given and non-empty, else the default. */
  function FormatParam(format: Option<string>): (r: string)
    ensures r != ""
    ensures format.None? || format.value == "" ==> r == DefaultFormat
    ensures format.Some? && format.value != "" ==> r == format.value
  {
    if format.None? || format.value == "" then DefaultFormat else format.value
  }

  function ToLowerAscii(c: char): char
  {
    if 'A' <= c <= 'Z' then (c as int + 32) as char else c
  }

  /** `equalsIgnoreCase`, on ASCII letters. */
  predicate EqualsIgnoreCase(a: string, b: string)
  {
    |a| == |b| && forall i :: 0 <= i < |a| ==> ToLowerAscii(a[i]) == ToLowerAscii(b[i])
  }

  /** The content type is XML exactly when `format` is "xml" in any letter case, JSON otherwise. */
  function ContentTypeFor(format: string): (r: MediaType)
    ensures r == ApplicationXml <==> |format| == 3 && format[0] in "xX" && format[1] in "mM" && format[2] in "lL"
  {
    if EqualsIgnoreCase("xml", format) then ApplicationXml else ApplicationJson
  }

  /** The key the controller checks: the `x-api-key` header when present, else the `apikey` parameter. */
  function SelectApiKey(headerApiKey: Option<string>, paramApiKey: Option<string>): (r: Option<string>)
    ensures r.None? <==> headerApiKey.None? && paramApiKey.None?
    ensures headerApiKey.Some? ==> r == headerApiKey
    ensures r.Some? ==> r == headerApiKey || r == paramApiKey
  {
    if headerApiKey.Some? then headerApiKey else paramApiKey
  }

  // ---------------------------------------------------------------------------
  // The guard chain and the collection step
  // ---------------------------------------------------------------------------

  /** The checks made before any lookup, in order: the first failing check's response, or None. */
  function Guard(configuredKey: string, startDate: LocalDate, endDate: LocalDate,
                 headerApiKey: Option<string>, paramApiKey: Option<string>): (r: Option<Response>)
    ensures r.None? <==> SelectApiKey(headerApiKey, paramApiKey) == Some(configuredKey) && !startDate.IsAfter(endDate)
    ensures r.Some? ==> r.value.httpStatus in {400, 403} && r.value.body.data.None?
  {
    if headerApiKey.None? && paramApiKey.None? then Some(MissingApiKey)
    else if SelectApiKey(headerApiKey, paramApiKey) != Some(configuredKey) then Some(InvalidApiKey)
    else if startDate.IsAfter(endDate) then Some(StartAfterEnd)
    else None
  }

  /** A company's history rows as response lines: its name, the trade date and the closing price of each row, in order. */
  function ToResponses(company: Company, rows: seq<StocksHistory>): seq<StockResponse>
  {
    seq(|rows|, i requires 0 <= i < |rows| => StockResponse(company.companyName, rows[i].tradeDate, rows[i].closePrice))
  }

  /** The value computed for one code: None (null) for an unknown company, else its rows. */
  function LookupEntry(service: StockService, code: string, startDate: LocalDate, endDate: LocalDate): Option<seq<StockResponse>>
  {
    match service.getCompanyByCode(code)
    case None => None
    case Some(company) => Some(ToResponses(company, service.getStocksHistory(code, startDate, endDate)))
  }

  /**
   * `Collectors.toMap` as the code uses it: the codes are taken in order, a null value or a
   * code already collected throws (None).
   */
  function CollectAsWritten(service: StockService, codes: seq<string>, startDate: LocalDate, endDate: LocalDate)
    : (r: Option<map<string, Option<seq<StockResponse>>>>)
    ensures r.Some? ==> forall code :: code in r.value ==> code in codes && r.value[code].Some?
    decreases |codes|
  {
    if codes == [] then Some(map[])
    else
      match CollectAsWritten(service, codes[..|codes| - 1], startDate, endDate)
      case None => None
      case Some(collected) =>
        var code := codes[|codes| - 1];
        var value := LookupEntry(service, code, startDate, endDate);
        if value.None? || code in collected then None else Some(collected[code := value])
  }

  /**
   * The collection the check after it expects: an unknown company is kept as a null value;
   * a code already collected still throws (None).
   */
  function CollectIntended(service: StockService, codes: seq<string>, startDate: LocalDate, endDate: LocalDate)
    : (r: Option<map<string, Option<seq<StockResponse>>>>)
    ensures r.Some? ==> forall code :: code in r.value ==> code in codes
    decreases |codes|
  {
    if codes == [] then Some(map[])
    else
      match CollectIntended(service, codes[..|codes| - 1], startDate, endDate)
      case None => None
      case Some(collected) =>
        var code := codes[|codes| - 1];
        if code in collected then None
        else Some(collected[code := LookupEntry(service, code, startDate, endDate)])
  }

  /**
   * After the collection: an exception becomes a 500, a null value a 404, anything else a
   * 200 with the content type chosen from `format`.
   */
  function Respond(collected: Option<map<string, Option<seq<StockResponse>>>>, format: string): (r: Response)
    ensures r.httpStatus == 500 <==> collected.None?
    ensures r.httpStatus in {200, 404, 500}
    ensures r.httpStatus == 200 ==>
              collected.Some? && r.contentType == Some(ContentTypeFor(format))
              && r.body.data.Some? && r.body.data.value.Keys == collected.value.Keys
    ensures r.httpStatus != 200 ==> r.contentType.None? && r.body.data.None?
  {
    match collected
    case None => InternalServerError
    case Some(m) =>
      if exists code :: code in m && m[code].None? then CompaniesNotFound
      else Success(format, map code | code in m :: m[code].value)
  }

  /** getStocks, with the collection the not-found check was written for. */
  function GetStocks(service: StockService, configuredKey: string, companyCodes: seq<string>,
                     startDate: LocalDate, endDate: LocalDate,
                     headerApiKey: Option<string>, paramApiKey: Option<string>, format: string): (r: Response)
    ensures r.httpStatus in {200, 400, 403, 404, 500}
    ensures r.httpStatus == 200 ==>
              r.contentType == Some(ContentTypeFor(format))
              && r.body.data.Some? && forall code :: code in r.body.data.value ==> code in companyCodes
    ensures r.httpStatus != 200 ==> r.contentType.None? && r.body.data.None?
  {
    match Guard(configuredKey, startDate, endDate, headerApiKey, paramApiKey)
    case Some(rejection) => rejection
    case None => Respond(CollectIntended(service, companyCodes, startDate, endDate), format)
  }

  /** getStocks as written, with `Collectors.toMap`'s exceptions. */
  function GetStocksAsWritten(service: StockService, configuredKey: string, companyCodes: seq<string>,
                              startDate: LocalDate, endDate: LocalDate,
                              headerApiKey: Option<string>, paramApiKey: Option<string>, format: string): (r: Response)
    ensures r.httpStatus in {200, 400, 403, 500}
    ensures r.httpStatus == 200 ==>
              r.contentType == Some(ContentTypeFor(format))
              && r.body.data.Some? && forall code :: code in r.body.data.value ==> code in companyCodes
  {
    match Guard(configuredKey, startDate, endDate, headerApiKey, paramApiKey)
    case Some(rejection) => rejection
    case None => Respond(CollectAsWritten(service, companyCodes, startDate, endDate), format)
  }

  /**
   * The `/single` endpoint: one code, `format` defaulting to "json", built on the intended
   * GetStocks. There a single code cannot repeat, so it never fails with 500; as written, an
   * unknown code does give 500 (AsWrittenDiffersOnlyOnNotFound). Without `format` a success
   * is JSON.
   */
  function GetSingleStock(service: StockService, configuredKey: string, companyCode: string,
                          startDate: LocalDate, endDate: LocalDate,
                          headerApiKey: Option<string>, paramApiKey: Option<string>, format: Option<string>): (r: Response)
    ensures r.httpStatus != 500
    ensures format.None? && r.httpStatus == 200 ==> r.contentType == Some(ApplicationJson)
  {
    GetStocksDecision(service, configuredKey, [companyCode], startDate, endDate, headerApiKey, paramApiKey, FormatParam(format));
    GetStocks(service, configuredKey, [companyCode], startDate, endDate, headerApiKey, paramApiKey, FormatParam(format))
  }

  /** The `/multiple` endpoint: the codes as given, `format` defaulting to "json"; without it a success is JSON. */
  function GetMultipleStocks(service: StockService, configuredKey: string, companyCode: seq<string>,
                             startDate: LocalDate, endDate: LocalDate,
                             headerApiKey: Option<string>, paramApiKey: Option<string>, format: Option<string>): (r: Response)
    ensures format.None? && r.httpStatus == 200 ==> r.contentType == Some(ApplicationJson)
    ensures r.httpStatus == 200 ==> r.body.data.Some? && forall code :: code in r.body.data.value ==> code in companyCode
  {
    GetStocks(service, configuredKey, companyCode, startDate, endDate, headerApiKey, paramApiKey, FormatParam(format))
  }

  // ---------------------------------------------------------------------------
  // Declarative reading of the collection
  // ---------------------------------------------------------------------------

  /** No code is requested twice. */
  predicate Distinct(codes: seq<string>)
  {
    forall i, j :: 0 <= i < j < |codes| ==> codes[i] != codes[j]
  }

  /** Every requested company exists. */
  predicate AllKnown(service: StockService, codes: seq<string>)
  {
    forall i :: 0 <= i < |codes| ==> service.getCompanyByCode(codes[i]).Some?
  }

  /**
   * The intended collection succeeds exactly when no code repeats, and then holds one entry
   * per requested code: that code's lookup.
   */
  lemma {:induction false} CollectIntendedSpec(service: StockService, codes: seq<string>, startDate: LocalDate, endDate: LocalDate)
    ensures CollectIntended(service, codes, startDate, endDate).Some? <==> Distinct(codes)
    ensures CollectIntended(service, codes, startDate, endDate).Some? ==>
              var m := CollectIntended(service, codes, startDate, endDate).value;
              (forall code :: code in m <==> code in codes)
              && (forall code :: code in m ==> m[code] == LookupEntry(service, code, startDate, endDate))
    decreases |codes|
  {
    if codes != [] {
      var prefix := codes[..|codes| - 1];
      var code := codes[|codes| - 1];
      CollectIntendedSpec(service, prefix, startDate, endDate);
      assert codes == prefix + [code];
      assert Distinct(codes) <==> Distinct(prefix) && code !in prefix by {
        assert forall i :: 0 <= i < |prefix| ==> prefix[i] == codes[i];
      }
    }
  }

  /**
   * `Collectors.toMap` as written succeeds exactly when no code repeats and every company
   * exists, and then collects what the intended collection does.
   */
  lemma {:induction false} CollectAsWrittenSpec(service: StockService, codes: seq<string>, startDate: LocalDate, endDate: LocalDate)
    ensures CollectAsWritten(service, codes, startDate, endDate)
            == if Distinct(codes) && AllKnown(service, codes) then CollectIntended(service, codes, startDate, endDate) else None
    decreases |codes|
  {
    if codes != [] {
      var prefix := codes[..|codes| - 1];
      var code := codes[|codes| - 1];
      CollectAsWrittenSpec(service, prefix, startDate, endDate);
      CollectIntendedSpec(service, codes, startDate, endDate);
      CollectIntendedSpec(service, prefix, startDate, endDate);
      assert AllKnown(service, codes) <==> AllKnown(service, prefix) && service.getCompanyByCode(code).Some? by {
        assert forall i :: 0 <= i < |prefix| ==> prefix[i] == codes[i];
      }
      assert Distinct(codes) ==> Distinct(prefix) by {
        assert forall i :: 0 <= i < |prefix| ==> prefix[i] == codes[i];
      }
    }
  }

  /** The data of a success: one entry per requested code, holding that company's rows in lookup order. */
  ghost predicate IsStockData(service: StockService, codes: seq<string>, startDate: LocalDate, endDate: LocalDate,
                              data: map<string, seq<StockResponse>>)
  {
    (forall code :: code in data <==> code in codes)
    && forall code :: code in data ==>
         service.getCompanyByCode(code).Some?
         && var company := service.getCompanyByCode(code).value;
            var rows := service.getStocksHistory(code, startDate, endDate);
            |data[code]| == |rows|
            && forall i :: 0 <= i < |rows| ==>
                 data[code][i] == StockResponse(company.companyName, rows[i].tradeDate, rows[i].closePrice)
  }

  // ---------------------------------------------------------------------------
  // Properties of getStocks
  // ---------------------------------------------------------------------------

  /**
   * The whole decision of getStocks, check by check: missing key, wrong key, reversed dates,
   * repeated code, unknown company, success with the requested entries.
   */
  lemma GetStocksDecision(service: StockService, configuredKey: string, codes: seq<string>,
                          startDate: LocalDate, endDate: LocalDate,
                          headerApiKey: Option<string>, paramApiKey: Option<string>, format: string)
    ensures var r := GetStocks(service, configuredKey, codes, startDate, endDate, headerApiKey, paramApiKey, format);
            if headerApiKey.None? && paramApiKey.None? then r == MissingApiKey
            else if SelectApiKey(headerApiKey, paramApiKey) != Some(configuredKey) then r == InvalidApiKey
            else if startDate.IsAfter(endDate) then r == StartAfterEnd
            else if !Distinct(codes) then r == InternalServerError
            else if !AllKnown(service, codes) then r == CompaniesNotFound
            else r.body.data.Some? && r == Success(format, r.body.data.value)
                 && IsStockData(service, codes, startDate, endDate, r.body.data.value)
  {
    if Guard(configuredKey, startDate, endDate, headerApiKey, paramApiKey).None? {
      CollectIntendedSpec(service, codes, startDate, endDate);
      if Distinct(codes) {
        var m := CollectIntended(service, codes, startDate, endDate).value;
        if !AllKnown(service, codes) {
          var i :| 0 <= i < |codes| && service.getCompanyByCode(codes[i]).None?;
          assert codes[i] in m && m[codes[i]].None?;
        } else {
          assert forall code :: code in m ==> m[code].Some? by {
            forall code | code in m ensures m[code].Some? {
              var i :| 0 <= i < |codes| && codes[i] == code;
            }
          }
          var data := map code | code in m :: m[code].value;
          forall code | code in data
            ensures service.getCompanyByCode(code).Some?
          {
            var i :| 0 <= i < |codes| && codes[i] == code;
          }
        }
      }
    }
  }

  /** With neither key, the answer is 400 "API Key is missing", whatever else the request holds. */
  lemma MissingKeyFirst(service: StockService, configuredKey: string, codes: seq<string>,
                        startDate: LocalDate, endDate: LocalDate, format: string)
    ensures GetStocks(service, configuredKey, codes, startDate, endDate, None, None, format) == MissingApiKey
  {
  }

  /** When the header carries a key, the `apikey` parameter is ignored. */
  lemma HeaderKeyTakesPrecedence(service: StockService, configuredKey: string, codes: seq<string>,
                                 startDate: LocalDate, endDate: LocalDate,
                                 headerKey: string, paramApiKey: Option<string>, format: string)
    ensures GetStocks(service, configuredKey, codes, startDate, endDate, Some(headerKey), paramApiKey, format)
            == GetStocks(service, configuredKey, codes, startDate, endDate, Some(headerKey), None, format)
  {
  }

  /** A wrong key is answered 403 before the dates or the companies are looked at. */
  lemma InvalidKeyBeforeDates(service: StockService, configuredKey: string, codes: seq<string>,
                              startDate: LocalDate, endDate: LocalDate,
                              headerApiKey: Option<string>, paramApiKey: Option<string>, format: string)
    requires headerApiKey.Some? || paramApiKey.Some?
    requires SelectApiKey(headerApiKey, paramApiKey) != Some(configuredKey)
    ensures GetStocks(service, configuredKey, codes, startDate, endDate, headerApiKey, paramApiKey, format) == InvalidApiKey
  {
  }

  /** With a valid key, a start date after the end date is answered 400; equal dates pass the check. */
  lemma DateCheck(service: StockService, configuredKey: string, codes: seq<string>,
                  startDate: LocalDate, endDate: LocalDate,
                  headerApiKey: Option<string>, paramApiKey: Option<string>, format: string)
    requires SelectApiKey(headerApiKey, paramApiKey) == Some(configuredKey)
    ensures startDate.epochDay > endDate.epochDay ==>
              GetStocks(service, configuredKey, codes, startDate, endDate, headerApiKey, paramApiKey, format) == StartAfterEnd
    ensures startDate.epochDay <= endDate.epochDay ==>
              GetStocks(service, configuredKey, codes, startDate, endDate, headerApiKey, paramApiKey, format).httpStatus != 400
  {
  }

  /** No success is produced when any requested company is unknown. */
  lemma UnknownCompanyNoSuccess(service: StockService, configuredKey: string, codes: seq<string>,
                                startDate: LocalDate, endDate: LocalDate,
                                headerApiKey: Option<string>, paramApiKey: Option<string>, format: string,
                                i: nat)
    requires i < |codes| && service.getCompanyByCode(codes[i]).None?
    ensures GetStocks(service, configuredKey, codes, startDate, endDate, headerApiKey, paramApiKey, format).httpStatus != 200
    ensures GetStocksAsWritten(service, configuredKey, codes, startDate, endDate, headerApiKey, paramApiKey, format).httpStatus != 200
  {
    GetStocksDecision(service, configuredKey, codes, startDate, endDate, headerApiKey, paramApiKey, format);
    AsWrittenDecision(service, configuredKey, codes, startDate, endDate, headerApiKey, paramApiKey, format);
  }

  /** Without a `format` parameter the content type is JSON. */
  lemma DefaultFormatIsJson()
    ensures ContentTypeFor(FormatParam(None)) == ApplicationJson
  {
  }

  /** The single endpoint is the multiple endpoint called with a one-element code list. */
  lemma SingleIsMultipleOfOne(service: StockService, configuredKey: string, companyCode: string,
                              startDate: LocalDate, endDate: LocalDate,
                              headerApiKey: Option<string>, paramApiKey: Option<string>, format: Option<string>)
    ensures GetSingleStock(service, configuredKey, companyCode, startDate, endDate, headerApiKey, paramApiKey, format)
            == GetMultipleStocks(service, configuredKey, [companyCode], startDate, endDate, headerApiKey, paramApiKey, format)
  {
  }

  // ---------------------------------------------------------------------------
  // getStocks as written: the not-found branch cannot be reached
  // ---------------------------------------------------------------------------

  /**
   * The decision of getStocks as written: the same guards, then 500 for a repeated code or
   * an unknown company, else the same success as GetStocks.
   */
  lemma AsWrittenDecision(service: StockService, configuredKey: string, codes: seq<string>,
                          startDate: LocalDate, endDate: LocalDate,
                          headerApiKey: Option<string>, paramApiKey: Option<string>, format: string)
    ensures var r := GetStocksAsWritten(service, configuredKey, codes, startDate, endDate, headerApiKey, paramApiKey, format);
            match Guard(configuredKey, startDate, endDate, headerApiKey, paramApiKey)
            case Some(rejection) => r == rejection
            case None =>
              if Distinct(codes) && AllKnown(service, codes)
              then r == GetStocks(service, configuredKey, codes, startDate, endDate, headerApiKey, paramApiKey, format)
              else r == InternalServerError
  {
    CollectAsWrittenSpec(service, codes, startDate, endDate);
  }

  /** As written, no request is ever answered 404. */
  lemma AsWrittenNeverNotFound(service: StockService, configuredKey: string, codes: seq<string>,
                               startDate: LocalDate, endDate: LocalDate,
                               headerApiKey: Option<string>, paramApiKey: Option<string>, format: string)
    ensures GetStocksAsWritten(service, configuredKey, codes, startDate, endDate, headerApiKey, paramApiKey, format).httpStatus != 404
  {
    AsWrittenDecision(service, configuredKey, codes, startDate, endDate, headerApiKey, paramApiKey, format);
    GetStocksDecision(service, configuredKey, codes, startDate, endDate, headerApiKey, paramApiKey, format);
  }

  /**
   * The two readings differ exactly where the intended one answers 404: there the code as
   * written answers 500; everywhere else they agree.
   */
  lemma AsWrittenDiffersOnlyOnNotFound(service: StockService, configuredKey: string, codes: seq<string>,
                                       startDate: LocalDate, endDate: LocalDate,
                                       headerApiKey: Option<string>, paramApiKey: Option<string>, format: string)
    ensures var intended := GetStocks(service, configuredKey, codes, startDate, endDate, headerApiKey, paramApiKey, format);
            var actual := GetStocksAsWritten(service, configuredKey, codes, startDate, endDate, headerApiKey, paramApiKey, format);
            (intended == CompaniesNotFound ==> actual == InternalServerError)
            && (intended != CompaniesNotFound ==> actual == intended)
  {
    AsWrittenDecision(service, configuredKey, codes, startDate, endDate, headerApiKey, paramApiKey, format);
    GetStocksDecision(service, configuredKey, codes, startDate, endDate, headerApiKey, paramApiKey, format);
  }

  /** A service that knows no company and no history. */
  function EmptyService(): StockService
  {
    StockService(_ => None, (_, _, _) => [])
  }

  /**
   * The input that shows it: a valid key, ordered dates and one unknown code are answered
   * 500 by the code as written, where 404 "One or more companies not found" was meant.
   */
  lemma UnknownCompanyCounterexample()
    ensures GetStocksAsWritten(EmptyService(), "key", ["AAPL"], LocalDate(0), LocalDate(1), Some("key"), None, "json")
            == InternalServerError
    ensures GetStocks(EmptyService(), "key", ["AAPL"], LocalDate(0), LocalDate(1), Some("key"), None, "json")
            == CompaniesNotFound
  {
  }
}
