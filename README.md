# WiGLE request loops, in Dafny

A model of the scripts that pull wireless-observation records (Bluetooth,
cellular and Wi-Fi networks) from the WiGLE search API, page by page, and
write them to CSV files, together with the small text helpers around them,
and proofs of what these loops and helpers guarantee.

- `send_request` of bluetooth.py and of BluetoothCellularWiFi.py (the same
  loop, written twice) streams every page to a CSV file opened for
  appending, retries timeouts and connection errors, and stops on anything
  else (module `PagedFetch`).
- `send_request` of wifi.py keeps the pages in memory, retries only
  connection errors and writes one file at the end, but only on the exits
  that fall through to the save step (module `WifiFetch`).
- `send_request` of wigle.py asks for a single page, repeating the request
  only while the answer is 429 (module `WigleFetch`).
- BluetoothCellularWiFi.py picks the endpoint, the output file name and
  the first query from `api_type` and `only_mine` (module `SearchConfig`,
  path helpers in `PosixPath`).
- `is_valid_token` (module `Token`), `clean_string` (module `TableText`),
  and `csv_to_kml` with the file rule of `convert_csv_files_to_kml`
  (module `Kml`).

The remote API is a finite script of responses (`FetchCommon.Outcome`):
a 200 answer with its `results` and `totalResults`, a 401, a 429, another
status, or one of the exceptions the loops catch. Each loop is a method
with the loop's own variables (`current_count`, `total_count`, `retries`,
the `start` query parameter) and is proved to compute a recursive function
`Run` of the script; the lemmas about `Run` state what the loop promises.
A CSV file is an object (`CsvSink.CsvFile`) holding whether it exists and
its lines, each a header or one record. Nothing depends on the records'
contents, so a record is a type parameter.

Two consequences of the code that the lemmas make explicit:

- `retries` is cumulative: it is never reset after a success, so the loop
  ends once `MAX_RETRIES` transient failures have happened in the whole
  session (`PagedFetch.RetriesNeverReset`). The loop is not bounded while
  pages keep coming; in the model it ends when the script runs out.
- wifi.py drops every page received so far on a 401, an unexpected status
  or an exception other than a connection error, because those exits
  `return` before the save step; the streaming scripts keep what they
  wrote (`WifiFetch.FreshSession`, `PagedFetch.Run`).

## Model

| member | source | states |
|---|---|---|
| CsvSink.Rows | bluetooth.py:158-159 | a batch becomes one data line per record, in order |
| CsvSink.FrameRoundTrip | bluetooth.py:158-159 | the data lines of one `to_csv` call read back as the batch; it holds a header exactly when `header` was true |
| CsvSink.AppendFrame | bluetooth.py:158-159 | appending a batch keeps the earlier lines, puts its records after the earlier ones, adds one header iff asked |
| CsvSink.CsvFile.OpenAppend | bluetooth.py:142 | opening for appending creates the file and keeps its lines |
| CsvSink.CsvFile.AppendCsv | bluetooth.py:159 | an appending `to_csv` adds exactly that batch's lines after the old ones |
| CsvSink.CsvFile.OverwriteCsv | wigle.py:62-66 | a `to_csv` in write mode replaces the file by a header and the batch |
| PagedFetch.Run | bluetooth.py:143-195 | at most one response is used per request, and the lines already in the file are never changed, whatever the responses |
| PagedFetch.StepFile | bluetooth.py:158-159 | one pass of the loop body appends a page, with a header iff the file is empty; nothing else writes |
| PagedFetch.StepCursor | bluetooth.py:148-164 | one pass adds the page length to `current_count`, fixes `total_count` if unknown, adds 1 to `retries` exactly on a timeout or connection error, sets `start` to `current_count` after a success and keeps it after a retry |
| PagedFetch.StepExit | bluetooth.py:161-195 | the loop goes on exactly after a retry or a success below `total_count`; every other response stops it with a reason naming it |
| PagedFetch.RunAppendsRows | bluetooth.py:150-159 | the file's records after a session are its old records followed by every page received, in order |
| PagedFetch.RunCountsRows | bluetooth.py:151 | `current_count` grows by exactly the number of records received |
| PagedFetch.RunHeaderOnce | bluetooth.py:142-159 | a header is added only to a file that was empty, once, as soon as a page arrives; a non-empty file gets none |
| PagedFetch.RunHeaderFirst | bluetooth.py:159 | on a file that was empty the first line is the header once a page has arrived |
| PagedFetch.RunTotalFromFirstSuccess | bluetooth.py:153-154 | `total_count` is the total of the first success and never changes afterwards |
| PagedFetch.RunRetryBound | BluetoothCellularWiFi.py:110-122 | `retries` counts every timeout and connection error of the session; it never exceeds 3, and the loop ends for lack of retries exactly when it reaches 3 (bluetooth.py does the same) |
| PagedFetch.RunStopReason | bluetooth.py:161-195 | only successes and transient failures let the loop go on; 401, 429, other statuses, redirects and other exceptions end it at once and the reason names the last response; `NoMoreOutcomes` only when every response was used and the last was a retry or a success below `total_count`; a success is the last response only on `Completed` or `NoMoreOutcomes` |
| PagedFetch.RunRequestStarts | bluetooth.py:164 | the `start` of every request is absent before the first success and is the `current_count` reached after it |
| PagedFetch.RunContinuesBelowTotal | bluetooth.py:161-164 | every success after which the loop went on left `current_count` below `total_count` |
| PagedFetch.RunRequestParams | bluetooth.py:164-191 | a retry repeats the previous request's `start`; the request after a success asks for `start == current_count` |
| PagedFetch.FreshSession | bluetooth.py:128-197 | on a new file: the records are the pages received in order, `current_count` is their number, one header at the top iff a page arrived, at most 3 transient failures, `total_count` from the first success |
| PagedFetch.ThreePages | BluetoothCellularWiFi.py:79-96 | 100, 100 and 50 records out of 250: three requests at start absent, 100, 200; one header then the 250 records; complete |
| PagedFetch.RetriesNeverReset | BluetoothCellularWiFi.py:110-122 | a timeout, a page, a connection error, a page and a timeout end the session for lack of retries, although pages succeeded in between |
| PagedFetch.SendRequest | bluetooth.py:128-197 | the loop, on a file opened for appending, ends exactly as `Run` from a fresh cursor says: cursor, file, requests and reason; BluetoothCellularWiFi.py runs the same loop |
| WifiFetch.Run | wifi.py:58-99 | at most one response is used per request |
| WifiFetch.StepCursor | wifi.py:63-95 | one pass extends `total_results` by the page, adds its length to `current_count`, fixes `total_count` if unknown, counts only connection errors as retries, and sets `start` after a success |
| WifiFetch.StepExit | wifi.py:74-99 | a success reaching `total_count` completes, 401 / 429 / other statuses name their reason, every exception but a connection error fails |
| WifiFetch.RunAccumulates | wifi.py:66-67 | `total_results` is the in-order concatenation of the pages received and `current_count` grows by their lengths |
| WifiFetch.RunTotalFromFirstSuccess | wifi.py:69-70 | `total_count` is the total of the first success and never changes afterwards |
| WifiFetch.RunRetryBound | wifi.py:92-95 | `retries` counts exactly the connection errors, at most `max_retries` of them; the loop ends for lack of retries exactly when `retries` reaches `max_retries` |
| WifiFetch.RunStopReason | wifi.py:74-99 | only successes and connection errors let the loop go on; a timeout, redirects or any other exception fails at once; the reason names the last response; `NoMoreOutcomes` only when every response was used and the last was a connection error or a success below `total_count` |
| WifiFetch.RunRequestStarts | wifi.py:77 | the `start` of every request is absent before the first success and is the `current_count` reached after it |
| WifiFetch.RunContinuesBelowTotal | wifi.py:74-77 | every success after which the loop went on left `current_count` below `total_count` |
| WifiFetch.FreshSession | wifi.py:51-119 | `current_count == len(total_results)`; the file changes iff the loop fell through (completion, 429, retries spent) with at least one record; then it gains exactly those records, after the old lines, with a header iff it did not exist; equally, it changes iff records came and the last response was a 429 or a completing success, or retries were spent |
| WifiFetch.SaveByResponses | wifi.py:74-102 | the loop reaches the save step iff `retries` reached `max_retries` or the last response was a 429 or a success bringing `current_count` to `total_count` |
| WifiFetch.Pass | wifi.py:63-99 | one pass of the loop body on the loop's own variables does exactly what `StepOf` says: the new `current_count`, `total_count`, `retries`, `start`, `total_results`, and the exit taken |
| WifiFetch.FetchAll | wifi.py:51-99 | the loop ends exactly as `Run` says: cursor, `total_results`, requests and reason |
| WifiFetch.SendRequest | wifi.py:51-119 | the loop and the save step: the file is written iff the loop fell through with records, with a header iff it did not exist |
| WigleFetch.Run | wigle.py:43-77 | at most one response is used per request |
| WigleFetch.RunOutcome | wigle.py:41-77 | every request but the last was answered 429 and counted as a retry; at most `max_retries` requests; a page is written iff the last answer was 200, and it is that answer's page; 401, other statuses and every exception end the call with nothing written |
| WigleFetch.AllThrottled | wigle.py:68-71 | only 429 answers: exactly `max_retries` requests, then the call gives up with nothing written |
| WigleFetch.SendRequest | wigle.py:41-77 | the loop ends as `Run` says and the file holds a header and the page iff a 200 came, and is untouched otherwise |
| TableText.AsciiReplace | wifi.py:139 | encoding to ASCII with replacement keeps ASCII characters and turns each other one into one '?' |
| TableText.MarkUnprintable | wifi.py:137-138 | each ASCII character is kept if printable, else replaced by '?' |
| TableText.CleanText | wifi.py:135-143 | a cleaned string has the original length and is all printable ASCII |
| TableText.CleanString | wifi.py:135-143 | a value that is not a string is returned unchanged; a string keeps its length |
| TableText.CleanTextChars | wifi.py:135-143 | each printable ASCII character stays where it was, every other character becomes exactly one '?' |
| TableText.CleanTextFixed | wigle.py:94-102 | a string is left unchanged exactly when it is all printable ASCII |
| TableText.CleanStringIdempotent | wigle.py:94-102 | cleaning twice is cleaning once |
| Token.FullMatchStarAll | bluetooth.py:29 | a full match of a starred character class accepts exactly the strings made of class characters |
| Token.ValidTokenChars | bluetooth.py:29 | a token is valid iff each character is a word character, '-', '_' or '='; the empty token is valid |
| Token.ValidTokenConcat | BluetoothCellularWiFi.py:25 | two tokens glued together are valid iff both are |
| Token.InvalidWith | bluetooth.py:29 | one character outside the class anywhere makes a token invalid |
| SearchConfig.Endpoint | BluetoothCellularWiFi.py:51-52 | `api_type` selects an endpoint iff it lies in -3..2, with Python's negative indexing |
| SearchConfig.BadApiType | BluetoothCellularWiFi.py:52 | any other `api_type` yields neither a file name nor a URL |
| SearchConfig.EndpointFiles | BluetoothCellularWiFi.py:51-55 | 0, 1, 2 write to `output/bluetooth_…`, `output/cell_…`, `output/network_…` and query the matching URL (-1..-3 repeat them backwards) |
| SearchConfig.KindFiles | BluetoothCellularWiFi.py:55 | the file prefix is the endpoint's segment before '/', joined under `output/` |
| SearchConfig.SameUrls | BluetoothCellularWiFi.py:76 | `api_type` 0 asks the URL of bluetooth.py, 2 the URL of wifi.py and wigle.py |
| SearchConfig.LowerAscii | BluetoothCellularWiFi.py:62 | lower-casing keeps the length and maps exactly 'A'..'Z' down |
| SearchConfig.InitialQuery | BluetoothCellularWiFi.py:61-65 | `onlymine` is "true" or "false" from the boolean, `first` is 100, `lastupdt` is passed through, no `start` |
| PosixPath.SplitHead | BluetoothCellularWiFi.py:55 | `split('/')[0]` is the longest prefix without '/', ending at the first '/' |
| PosixPath.SplitHeadOf | BluetoothCellularWiFi.py:55 | the head of a string ends at its first separator whatever follows |
| PosixPath.Join | Cellular-csvtokml.py:32-33 | `os.path.join` keeps an absolute second part, else ends with the second part after at most one added '/' |
| PosixPath.JoinRelative | Cellular-csvtokml.py:32-33 | joining a relative name to a directory without a trailing '/' puts exactly one '/' between |
| PosixPath.SplitExt | Cellular-csvtokml.py:33 | `os.path.splitext` splits a path into two parts that give it back; the extension is empty or a '.' with no '/' after it |
| PosixPath.SplitExtOf | Cellular-csvtokml.py:33 | a final extension is split off exactly when the last path component holds something other than dots before it |
| Kml.CsvToKml | Cellular-csvtokml.py:10-26 | the writes are the prolog, one placemark per row in order, and the epilog |
| Kml.PlacemarksLayout | Cellular-csvtokml.py:13-24 | seven writes per row, row `i` in block `i` |
| Kml.KmlLayout | Cellular-csvtokml.py:10-26 | 5 + 7n writes: the XML declaration, `<kml>` with the KML 2.2 namespace and `<Document>` first, `</Document>` and `</kml>` last, row `i` at `3 + 7i`; no rows gives the five fixed lines |
| Kml.PlacemarkRoundTrip | Cellular-csvtokml.py:18-24 | a placemark reads back as its row: the `id` verbatim in name and description, longitude first then latitude |
| Kml.PlacemarksRoundTrip | Cellular-csvtokml.py:13-24 | the placemarks read back as the rows, in order |
| Kml.KmlRoundTrip | Cellular-csvtokml.py:10-26 | a written KML file reads back as its rows when no longitude holds a comma |
| Kml.CommaAmbiguity | Cellular-csvtokml.py:22 | with a comma in a longitude, two different rows write the same file |
| Kml.CsvNames | Cellular-csvtokml.py:30-31 | only names ending in ".csv" are selected |
| Kml.CsvNamesExact | Cellular-csvtokml.py:30-31 | a name is converted exactly when it is listed and ends in ".csv" |
| Kml.KmlNameOf | Cellular-csvtokml.py:33 | a ".csv" name loses ".csv" for ".kml", unless only dots precede ".csv" |
| Kml.KmlNamePlain | Cellular-csvtokml.py:33 | "a.csv" becomes "a.kml" |
| Kml.KmlNameHidden | Cellular-csvtokml.py:33 | ".csv" becomes ".csv.kml" |
| Kml.KmlNameDots | Cellular-csvtokml.py:33 | "..csv" becomes "..csv.kml" |
| Kml.KmlNameClash | Cellular-csvtokml.py:33 | "..csv" and "..csv.csv" both become "..csv.kml" |
| Kml.ConvertCsvFilesToKml | Cellular-csvtokml.py:30-34 | the conversions made are those of `Conversions` for the listing |
| Kml.ConversionsPerCsvName | Cellular-csvtokml.py:30-34 | one conversion per CSV name, in listing order, writing `csv_to_kml` of that file to the `.kml` path beside it |

## Left out

- HTTP, JSON decoding and the exceptions `requests` raises: the responses are a script of `Outcome`s; a malformed body (missing `results`, a non-numeric `totalResults`) is not modelled.
- A connect timeout is both a timeout and a connection error in `requests`; the model's `ConnErr` stands for it, and `Timeout` for a read timeout.
- `NoMoreOutcomes` is the model's own stop reason for a script that ran out while the loop would have sent another request; in wifi.py it does not reach the save step.
- `time.sleep` between requests and after failures, and every `print`.
- pandas: `DataFrame` construction, column names, CSV escaping; a record is opaque and a file is a sequence of header and record lines.
- `pretty_table` beyond `clean_string`: PrettyTable construction and printing.
- `get_input`, `get_coordinate`, `get_coordinate_range`, `main`, argument parsing, environment variables, `get_token`, and `get_headers`, which returns a placeholder.
- The query parameters of bluetooth.py, wifi.py and wigle.py (coordinate ranges) and the float formatting of their file names; only the `start` parameter of the paged loops is modelled. wigle.py sends no `start`.
- `datetime` timestamps: a timestamp is a string parameter of `SearchConfig.OutputFileName`.
- The file system: `os.makedirs`, `os.listdir` (a listing is a parameter), opening files, and `csv.DictReader` (a function giving each path's rows is a parameter); a missing column and the `KeyError` it raises are not modelled.
- XML escaping: none is done and none is claimed.
- The exact Unicode `\w` class of Python's `re`: it is a parameter of `Token`.
- Python strings holding lone surrogates: `clean_string` on them is not modelled (Dafny's `char` excludes them).
- `str.isprintable` is modelled on ASCII only, which is all `clean_string` ever gives it.
