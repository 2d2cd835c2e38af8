# PHP Presto client: query lifecycle

`PrestoClient` submits an SQL statement to a Presto coordinator over its REST
interface. The statement goes out with a POST. The client then keeps fetching the
continuation URL (`nextUri`) that every response carries, until a response
arrives without one. It decodes each JSON response into a few fields:
`nextUri`, `infoUri`, `partialCancelUri`, the query `state` and the result
rows. At the end it hands out the rows, but only if the query is `FINISHED`.

This project models that lifecycle in Dafny:

- `wrappers.dfy`: `Option`. On a decoded page, `None` is a field that is
  absent or null, so `isset` is false for it. In the client's `nextUri`,
  `None` is the `false` stored at PrestoClient.php:186.
- `php_array.dfy` (module `PhpArray`): an ordered PHP array with string keys.
  `$a[$k] = $v` overwrites an existing key in place and otherwise appends.
- `response.dfy` (module `Response`): a decoded response (`Page`) with optional
  fields. It also covers how one page's positional data rows are zipped against
  the same page's column names into keyed rows.
- `session.dfy` (module `QuerySession`): the fields a page updates, held as a
  value (`Session`), and three specification functions:
  - `Step`: the effect of decoding one page;
  - `Replay`: decoding a run of pages;
  - `Poll`, `Fetched` and `Consumed`: the poll loop over a finite list of
    server responses.
- `presto_client.dfy` (module `Presto`): the client itself. It is a class whose
  fields are those of the PHP object. Its methods update the fields in place and
  are proved against the functions above. Two scenario methods replay a SELECT 1
  round trip and the failure paths on concrete pages.

Transport is abstracted:

- A request the client would send comes back as an `HttpRequest` value.
- The status code and the decoded body of each response are inputs.
- The poll loop reads the bodies of its GETs from a list, `responses`. A GET
  beyond the end of the list stands for a failed fetch. Its body decodes to
  nothing, which is the empty page, and that ends the loop. This makes the loop
  terminate for every input.

The model keeps these behaviours of PrestoClient.php:

- Columns are not carried over between pages. Rows are built only from a page
  that has both `data` and `columns` (PrestoClient.php:189).
- An empty statement is not rejected, because the guard at
  PrestoClient.php:113 assigns instead of comparing.
- An undecodable response raises no error. It behaves like a page with no
  fields, so `nextUri` becomes false (PrestoClient.php:182-187).
- A poll whose fetch fails raises no error either. `file_get_contents` gives
  false, which decodes to the empty page and ends the loop
  (PrestoClient.php:154-155).
- The state is copied verbatim from `stats.state`. It is not forced forward,
  and it becomes null when `stats` lacks a `state` (PrestoClient.php:208-211).
- A final state other than `FINISHED` (`FAILED`, `CANCELED`, null, ...)
  raises the same "Incoherent State" error (PrestoClient.php:157-159).
- executeQuery ignores a `false` from query (PrestoClient.php:67). On a
  client still RUNNING it therefore decodes the previous response again, with
  the rows already emptied at PrestoClient.php:102.
- `infoUri` and `partialCancelUri` carry over from the previous query,
  because query never resets them (PrestoClient.php:100-142).
- `cancel` issues its request even when no query ever ran. `partialCancelUri`
  starts as `""` (PrestoClient.php:25), so the `isset` guard at
  PrestoClient.php:219 never returns early.

## Model

| member | source | states |
|---|---|---|
| PhpArray.Put | PrestoClient.php:194 | after `$row[$k] = $v` the key reads back as `v`, and a row with distinct keys keeps them distinct |
| PhpArray.PutLookupOther | PrestoClient.php:194 | assigning one key leaves every other key's value as it was |
| PhpArray.PutKeys | PrestoClient.php:194 | assigning an existing key keeps the key order and length; a new key is appended at the end |
| PhpArray.PutHasKey | PrestoClient.php:194 | after assigning `k`, the keys are the old keys plus `k` |
| PhpArray.LookupAt | PrestoClient.php:194 | a value read under key k is the value of an entry with key k |
| PhpArray.LookupIffKey | PrestoClient.php:194 | a key has a value exactly when it is one of the row's keys |
| Response.ZipRow | PrestoClient.php:192-195 | a zipped row has pairwise distinct keys and at most one entry per value |
| Response.ZipRowsAt | PrestoClient.php:191-197 | a page yields exactly one row per data row, in received order, and row i is data row i zipped against the columns |
| Response.ZipRowKeys | PrestoClient.php:192-195 | a row's keys are exactly the column names at the positions of its values; a missing column or name gives key "" |
| Response.ZipRowLookup | PrestoClient.php:192-195 | the key of column j maps to value j unless a later column has the same name, in which case that later value wins |
| Response.ZipRowPositional | PrestoClient.php:192-195 | with distinct column names, the row is position by position (name of column k, value k) |
| Response.AllRowsAppend | PrestoClient.php:151-156 | the rows of a run of pages split anywhere are the rows of the first part followed by those of the second |
| Response.ZipRowsAppend | PrestoClient.php:191-197 | zipping data rows split anywhere gives the two parts' rows, concatenated |
| Response.SplitPageRows | PrestoClient.php:189-197 | data split over two pages with the same columns yields the same rows as one page holding all of it |
| Response.NoColumnsNoRows | PrestoClient.php:189 | a page with data but no columns contributes no rows, whatever earlier pages carried |
| Response.DuplicateColumnOverwrites | PrestoClient.php:192-195 | two columns with the same name, whatever it is, give one entry: the first column's position, holding the second value |
| Response.RepeatedColumnOnce | PrestoClient.php:192-195 | a name repeated at positions i < j and not after j appears exactly once in the row, holding the value at j |
| QuerySession.StepEmptyPage | PrestoClient.php:182-187 | an undecodable body only sets the continuation URL to false: no rows, no URL or state change, no error |
| QuerySession.Poll | PrestoClient.php:152-156 | the poll loop always ends with a falsy continuation URL |
| QuerySession.Fetched | PrestoClient.php:152-154 | every URL the loop fetches is truthy (not "", not "0"); it fetches at all exactly when it starts with a truthy URL, and at most once per response plus a final failed fetch |
| QuerySession.Consumed | PrestoClient.php:152-156 | the loop consumes no more responses than given and than it fetches |
| QuerySession.ReplayData | PrestoClient.php:189-198 | after decoding a run of pages, the rows are the earlier rows followed by every page's rows in order |
| QuerySession.ReplayCons | PrestoClient.php:180-212 | decoding a page and then a run equals decoding the longer run |
| QuerySession.PollIsReplay | PrestoClient.php:151-156 | the loop leaves the URLs, state and rows of decoding exactly the responses it consumed |
| QuerySession.PollData | PrestoClient.php:151-156 | the rows after the loop are the previous rows followed by the consumed pages' rows, in order |
| QuerySession.PollStopsAtFirstFinalPage | PrestoClient.php:152-156 | the loop stops at the first page without a truthy `nextUri`; its outcome is decoding the pages up to and including that one |
| QuerySession.FetchedUntilFirstFinalPage | PrestoClient.php:152-156 | up to that page the loop fetches k+1 times: the starting URL, then the `nextUri` of each earlier page, in order |
| QuerySession.PollExhausted | PrestoClient.php:152-156 | when every response carries a truthy `nextUri`, all are consumed, the loop fetches the starting URL and then each response's `nextUri` in order, and that last fetch fails and ends the loop |
| QuerySession.ReplayInfoUri | PrestoClient.php:200-202 | `infoUri` is the last value a page carried, and the prior one if no page did |
| QuerySession.ReplayCancelUri | PrestoClient.php:204-206 | `partialCancelUri` is the last value a page carried, and the prior one if no page did |
| QuerySession.ReplayState | PrestoClient.php:208-211 | the state is the `stats.state` of the last page that carried `stats`, verbatim (null included), and the prior state if none did |
| Presto.PrestoClient.constructor | PrestoClient.php:43-48 | a new client holds the given URL, catalog and schema, `nextUri` " ", state "NONE", empty URLs and no rows |
| Presto.PrestoClient.GetVarFromResult | PrestoClient.php:180-212 | decoding the last response: nextUri is the page's or false, rows are the old rows plus the page's zipped rows, info/cancel URLs and state change only when the page carries them; as a whole it is `Step` |
| Presto.PrestoClient.AppendRows | PrestoClient.php:191-197 | the outer `foreach` appends the zipped data rows, in order, after the existing rows |
| Presto.PrestoClient.BuildRow | PrestoClient.php:192-195 | the inner `foreach` builds the keyed row `ZipRow` from positional values |
| Presto.PrestoClient.GetData | PrestoClient.php:85-91 | the rows come back exactly when the state is "FINISHED"; otherwise false |
| Presto.PrestoClient.Query | PrestoClient.php:100-142 | the rows are emptied, and user agent and request are set, before anything else; a RUNNING query gets false and no request, with state unchanged; otherwise the POST carries the request with User, Catalog, Schema and User-Agent headers in that order; 200 moves to RUNNING, and any other code is recorded in HTTP_ERROR and thrown with the state unchanged |
| Presto.PrestoClient.WaitQueryExec | PrestoClient.php:149-161 | the end state is the poll loop's outcome from the decoded submit response, the continuation URL is falsy, and it returns only when the state is "FINISHED" and throws "Incoherent State" otherwise |
| Presto.PrestoClient.PollWhileNext | PrestoClient.php:152-156 | the `while` loop leaves exactly the state `Poll` describes and fetches exactly the URLs `Fetched` lists |
| Presto.PrestoClient.ExecuteQuery | PrestoClient.php:64-78 | a failed submit throws the HTTP error with the rows emptied, the submit response stored and nothing fetched; otherwise (including a client still RUNNING, which decodes its stored response again) the outcome is the poll loop's, the stored response is the last one fetched, and the rows are returned when FINISHED and "Incoherent State" is thrown otherwise |
| Presto.PrestoClient.Cancel | PrestoClient.php:217-235 | the GET goes to the partial-cancel URL with the current headers, even when that is ""; the result is true exactly when the status is 204 |

## Left out

- The cURL and `file_get_contents` transport (PrestoClient.php:123-131, 154, 172-177, 223-228). A request is returned as a value; its status code and decoded body are inputs.
- `json_decode`. Its result is the `Page` datatype; a body it cannot decode is the empty page. JSON numbers are reals, with no floating-point detail.
- Non-string values in `nextUri`, `infoUri`, `partialCancelUri` or `stats.state`. The model takes them to be strings or absent, so PHP truthiness of numbers, arrays or objects there is not modelled.
- Data rows that are not arrays, and column entries that are not objects. A missing column or a column without `name` gives the key "" (PHP's null key); other malformed shapes are not modelled.
- `usleep(500000)` in the poll loop: timing only.
- A server that never stops sending `nextUri`. The loop runs over a finite list of responses and ends with a failed fetch once the list is used up.
- `getInstance` (PrestoClient.php:50-56): process-wide static singleton state.
- `getInfo` (PrestoClient.php:170-178): a raw HTTP passthrough with no logic.
- `maximumRetries` (PrestoClient.php:17): declared but never used.
- The `PrestoException` class is not part of this model. Only which error is thrown is modelled, as `PrestoError`, not its message text.
- The read of the status code after `curl_close` in `cancel` (PrestoClient.php:228). The status code is an input, and only the 204 decision is modelled.
- Presto.PrestoClient.Cancel: the `isset` guard at PrestoClient.php:219 is not a branch of the model, because the field always holds a string.
