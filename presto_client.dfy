/**
 * The client object: submit a statement, poll the continuation URL until the
 * server stops sending one, and hand out the accumulated rows once the query
 * is FINISHED. HTTP is abstracted: a request is returned as a value, and its
 * status code and decoded body are inputs.
 */
module Presto {
  import opened Wrappers
  import opened PhpArray
  import opened Response
  import opened QuerySession

  /** The two PrestoExceptions the client throws. */
  datatype PrestoError =
    | HttpError(code: int)   // "HTTP ERRROR: <code>" from a submit that did not get 200
    | IncoherentState        // "Incoherent State at end of query"

  /** A call that returns a value or throws. */
  datatype Outcome<+T> = Returned(value: T) | Thrown(error: PrestoError)

  /** The requests the client issues. Headers are null until a query has prepared them. */
  datatype HttpRequest =
    | Post(url: string, headers: seq<string>, body: string)
    | Get(url: string, maybeHeaders: Option<seq<string>>)

  const UserAgent := "PhpPrestoClient/0.2"

  class PrestoClient {
    const source := "PhpPrestoClient"
    const version := "0.2"
    const prestoUser := "presto"
    const prestoSchema: string
    const prestoCatalog: string
    const url: string

    var userAgent: string
    var nextUri: Option<string>
    var infoUri: string
    var partialCancelUri: string
    var state: Option<string>
    var headers: Option<seq<string>>
    var result: Page              // the last response body, as json_decode sees it
    var request: Option<string>
    var httpError: Option<int>    // the public HTTP_ERROR field
    var data: seq<Row>

    /** The fields a decoded page updates, as a value. */
    function View(): Session
      reads this
    {
      Session(nextUri, infoUri, partialCancelUri, state, data)
    }

    constructor (connectUrl: string, catalog: string, schema: string)
      ensures url == connectUrl && prestoCatalog == catalog && prestoSchema == schema
      ensures userAgent == "" && headers == None && request == None && httpError == None
      ensures result == EmptyPage
      ensures View() == Session(Some(" "), "", "", Some("NONE"), [])
    {
      url, prestoCatalog, prestoSchema := connectUrl, catalog, schema;
      userAgent := "";
      nextUri := Some(" ");
      infoUri, partialCancelUri := "", "";
      state := Some("NONE");
      headers, request, httpError := None, None, None;
      result := EmptyPage;
      data := [];
    }

    /**
     * Decodes the last response into the fields: the continuation URL is
     * replaced or cleared, the info and cancel URLs and the state are
     * replaced only when present, and one row per data row is appended.
     */
    method GetVarFromResult()
      modifies this`nextUri, this`data, this`infoUri, this`partialCancelUri, this`state
      ensures nextUri == old(result).nextUri
      ensures data == old(data) + PageRows(old(result))
      ensures infoUri == if old(result).infoUri.Some? then old(result).infoUri.value else old(infoUri)
      ensures partialCancelUri ==
                if old(result).partialCancelUri.Some? then old(result).partialCancelUri.value else old(partialCancelUri)
      ensures state == if old(result).stats.Some? then old(result).stats.value.state else old(state)
      ensures View() == Step(old(View()), old(result))
    {
      var decoded := result;
      if decoded.nextUri.Some? {
        nextUri := decoded.nextUri;
      } else {
        nextUri := None;
      }

      if decoded.data.Some? && decoded.columns.Some? {
        AppendRows(decoded.columns.value, decoded.data.value);
      }

      if decoded.infoUri.Some? {
        infoUri := decoded.infoUri.value;
      }

      if decoded.partialCancelUri.Some? {
        partialCancelUri := decoded.partialCancelUri.value;
      }

      if decoded.stats.Some? {
        state := decoded.stats.value.state;
      }
      StepFields(old(View()), decoded, View());
    }

    /** The outer loop of the decoding step: one zipped row appended per data row, in order. */
    method AppendRows(columns: seq<Column>, rows: seq<seq<Value>>)
      modifies this`data
      ensures data == old(data) + ZipRows(columns, rows)
    {
      var i := 0;
      while i < |rows|
        invariant 0 <= i <= |rows|
        invariant data == old(data) + ZipRows(columns, rows[..i])
      {
        var row := BuildRow(columns, rows[i]);
        data := data + [row];
        assert rows[..i + 1][..i] == rows[..i];
        i := i + 1;
      }
      assert rows[..i] == rows;
    }

    /**
     * The inner loop of the decoding step: each positional value is stored
     * under its column's name, a later duplicate name overwriting.
     */
    method BuildRow(columns: seq<Column>, values: seq<Value>) returns (row: Row)
      ensures row == ZipRow(columns, values)
    {
      row := [];
      var k := 0;
      while k < |values|
        invariant 0 <= k <= |values|
        invariant row == ZipRow(columns, values[..k])
      {
        row := Put(row, KeyAt(columns, k), values[k]);
        assert values[..k + 1][..k] == values[..k];
        k := k + 1;
      }
      assert values[..k] == values;
    }

    /**
     * Rows are handed out only once the query is FINISHED; otherwise the
     * answer is false (None).
     */
    function GetData(): (rows: Option<seq<Row>>)
      reads this
      ensures rows.Some? <==> state == Some("FINISHED")
      ensures rows.Some? ==> rows.value == data
    {
      if state != Some("FINISHED") then None else Some(data)
    }

    /** The headers of a submit, once the user agent is set. */
    function SubmitHeaders(): seq<string>
    {
      ["X-Presto-User: " + prestoUser, "X-Presto-Catalog: " + prestoCatalog,
       "X-Presto-Schema: " + prestoSchema, "User-Agent: " + UserAgent]
    }

    /**
     * Prepares and submits a statement. The rows are emptied first; a query
     * already RUNNING is refused without a request; otherwise the statement
     * is POSTed and a status other than 200 throws, leaving the state as it was.
     */
    method Query(query: string, httpCode: int, response: Page) returns (outcome: Outcome<bool>, sent: Option<HttpRequest>)
      modifies this`data, this`userAgent, this`request, this`headers, this`result, this`httpError, this`state
      ensures data == [] && userAgent == UserAgent && request == Some(query)
      ensures old(state) == Some("RUNNING") ==>
                && outcome == Returned(false) && sent == None && state == old(state)
                && headers == old(headers) && result == old(result) && httpError == old(httpError)
      ensures old(state) != Some("RUNNING") ==>
                && headers == Some(SubmitHeaders())
                && sent == Some(Post(url, headers.value, query))
                && result == response
      ensures old(state) != Some("RUNNING") && httpCode == 200 ==>
                outcome == Returned(true) && state == Some("RUNNING") && httpError == old(httpError)
      ensures old(state) != Some("RUNNING") && httpCode != 200 ==>
                outcome == Thrown(HttpError(httpCode)) && state == old(state) && httpError == Some(httpCode)
    {
      data := [];
      userAgent := source + "/" + version;
      request := Some(query);
      if state == Some("RUNNING") {
        return Returned(false), None;
      }
      // The emptiness guard at PrestoClient.php:113 assigns instead of
      // comparing, so it never rejects a statement, the empty one included.

      headers := Some(["X-Presto-User: " + prestoUser, "X-Presto-Catalog: " + prestoCatalog,
                       "X-Presto-Schema: " + prestoSchema, "User-Agent: " + userAgent]);
      assert headers.value == SubmitHeaders();
      sent := Some(Post(url, headers.value, query));
      result := response;

      if httpCode != 200 {
        httpError := Some(httpCode);
        return Thrown(HttpError(httpCode)), sent;
      }

      state := Some("RUNNING");
      outcome := Returned(true);
    }

    /**
     * Decodes the submit response, then fetches and decodes while the
     * continuation URL is truthy; returns only if the state is FINISHED
     * at the end.
     */
    method WaitQueryExec(responses: seq<Page>) returns (outcome: Outcome<bool>, fetched: seq<string>)
      modifies this`nextUri, this`data, this`infoUri, this`partialCancelUri, this`state, this`result
      ensures View() == Poll(Step(old(View()), old(result)), responses)
      ensures fetched == Fetched(Step(old(View()), old(result)), responses)
      ensures !Truthy(nextUri)
      ensures outcome == if state == Some("FINISHED") then Returned(true) else Thrown(IncoherentState)
      ensures result == if fetched == [] then old(result) else FetchResponse(responses, |fetched| - 1)
    {
      GetVarFromResult();
      fetched := PollWhileNext(responses);
      if state != Some("FINISHED") {
        return Thrown(IncoherentState), fetched;
      }
      outcome := Returned(true);
    }

    /**
     * The poll loop of WaitQueryExec: while the continuation URL is truthy,
     * fetch it (the next of the given responses) and decode the answer.
     */
    method PollWhileNext(responses: seq<Page>) returns (fetched: seq<string>)
      modifies this`nextUri, this`data, this`infoUri, this`partialCancelUri, this`state, this`result
      ensures View() == Poll(old(View()), responses)
      ensures fetched == Fetched(old(View()), responses)
      ensures result == if fetched == [] then old(result) else FetchResponse(responses, |fetched| - 1)
    {
      ghost var start := View();
      fetched := [];
      var i := 0;
      while Truthy(nextUri)
        invariant i <= |responses|
        invariant Poll(View(), responses[i..]) == Poll(start, responses)
        invariant fetched + Fetched(View(), responses[i..]) == Fetched(start, responses)
        invariant |fetched| == i || (|fetched| == i + 1 && i == |responses| && !Truthy(nextUri))
        invariant result == if fetched == [] then old(result) else FetchResponse(responses, |fetched| - 1)
        decreases |responses| + 1 - |fetched|
      {
        PollRound(start, responses, View(), i, fetched);
        fetched := fetched + [nextUri.value];
        result := FetchResponse(responses, i);
        GetVarFromResult();
        if i < |responses| {
          i := i + 1;
        }
      }
    }

    /**
     * Submits, waits, and returns the rows (an empty list where the rows
     * read as false). Exceptions from either step propagate.
     */
    method ExecuteQuery(queryStr: string, httpCode: int, submitResponse: Page, responses: seq<Page>)
      returns (outcome: Outcome<seq<Row>>, sent: Option<HttpRequest>, fetched: seq<string>)
      modifies this`data, this`userAgent, this`request, this`headers, this`result, this`httpError, this`state
      modifies this`nextUri, this`infoUri, this`partialCancelUri
      ensures userAgent == UserAgent && request == Some(queryStr)
      ensures old(state) == Some("RUNNING") ==> sent == None && headers == old(headers)
      ensures old(state) != Some("RUNNING") ==>
                headers == Some(SubmitHeaders()) && sent == Some(Post(url, SubmitHeaders(), queryStr))
      ensures old(state) != Some("RUNNING") && httpCode != 200 ==>
                && outcome == Thrown(HttpError(httpCode)) && fetched == []
                && View() == old(View()).(data := []) && httpError == Some(httpCode)
                && result == submitResponse
      ensures old(state) == Some("RUNNING") || httpCode == 200 ==>
                var first := if old(state) == Some("RUNNING") then old(result) else submitResponse;
                var start := Step(old(View()).(data := [], state := Some("RUNNING")), first);
                && View() == Poll(start, responses)
                && fetched == Fetched(start, responses)
                && httpError == old(httpError)
                && result == (if fetched == [] then first else FetchResponse(responses, |fetched| - 1))
                && outcome == if state == Some("FINISHED") then Returned(data) else Thrown(IncoherentState)
    {
      var submitted;
      submitted, sent := Query(queryStr, httpCode, submitResponse);
      if submitted.Thrown? {
        return Thrown(submitted.error), sent, [];
      }
      var finished;
      finished, fetched := WaitQueryExec(responses);
      if finished.Thrown? {
        return Thrown(finished.error), sent, fetched;
      }
      var rows := GetData();
      outcome := Returned(if rows.None? then [] else rows.value);
    }

    /**
     * Asks the server to cancel by calling the partial-cancel URL; reports
     * success exactly when the server answers 204 (No Content).
     */
    method Cancel(httpCode: int) returns (cancelled: bool, sent: HttpRequest)
      ensures sent == Get(partialCancelUri, headers)
      ensures cancelled <==> httpCode == 204
    {
      // The URL field always holds a string (initially ""), so the early
      // return at PrestoClient.php:219-221 cannot happen.
      sent := Get(partialCancelUri, headers);
      if httpCode != 204 {
        cancelled := false;
      } else {
        cancelled := true;
      }
    }
  }

  /** SELECT 1 answered in two pages: a queued submit response, then one final page with the row. */
  method SelectOneScenario()
  {
    var client := new PrestoClient("http://localhost:8080/v1/statement", "hive", "default");
    var submit := Page(Some("http://localhost:8080/v1/statement/q1/1"), Some("http://localhost:8080/ui/q1"),
                       Some("http://localhost:8080/v1/stage/q1.0"), Some(Stats(Some("QUEUED"))), None, None);
    var final := Page(None, None, None, Some(Stats(Some("FINISHED"))),
                      Some([Column(Some("_col0"))]), Some([[JNumber(1.0)]]));
    var outcome, sent, fetched := client.ExecuteQuery("SELECT 1", 200, submit, [final]);
    var row := [("_col0", JNumber(1.0))];
    assert [[JNumber(1.0)]][..0] == [] && [JNumber(1.0)][..0] == [];
    assert ZipRow([Column(Some("_col0"))], [JNumber(1.0)]) == row;
    assert PageRows(final) == [row];
    var start := Session(Some("http://localhost:8080/v1/statement/q1/1"), "http://localhost:8080/ui/q1",
                         "http://localhost:8080/v1/stage/q1.0", Some("QUEUED"), []);
    assert Poll(start, [final]) == Step(start, final);
    assert client.state == Some("FINISHED") && client.data == [row];
    assert sent == Some(Post("http://localhost:8080/v1/statement", client.SubmitHeaders(), "SELECT 1"));
    assert fetched == ["http://localhost:8080/v1/statement/q1/1"];
    assert outcome == Returned([[("_col0", JNumber(1.0))]]);
    assert client.partialCancelUri == "http://localhost:8080/v1/stage/q1.0";
  }

  /** A submit answered with 500 throws, and a query that ends FAILED throws IncoherentState. */
  method FailureScenarios()
  {
    var client := new PrestoClient("http://localhost:8080/v1/statement", "hive", "default");
    var outcome, sent, fetched := client.ExecuteQuery("SELECT 1", 500, EmptyPage, []);
    assert outcome == Thrown(HttpError(500)) && client.httpError == Some(500);
    assert client.state == Some("NONE");

    var other := new PrestoClient("http://localhost:8080/v1/statement", "hive", "default");
    var failed := Page(None, None, None, Some(Stats(Some("FAILED"))), None, None);
    outcome, sent, fetched := other.ExecuteQuery("SELECT x", 200, failed, []);
    assert fetched == [] && outcome == Thrown(IncoherentState);

    // A client that never ran a query still issues the cancel request, to "".
    var idle := new PrestoClient("http://localhost:8080/v1/statement", "hive", "default");
    var cancelled, request := idle.Cancel(204);
    assert request == Get("", None) && cancelled;
  }
}
