/**
  How `send_request` of BluetoothCellularWiFi.py chooses what to ask for
  and where to write: the endpoint for `api_type`, the output file named
  after the endpoint's first path segment, and the query parameters of
  the first request.
 */
module SearchConfig {
  import opened FetchCommon
  import opened PosixPath

  const BaseUrl: string := "https://api.wigle.net/api/v2/"

  /** `api_endpoints`, in the order of `api_type` 0, 1, 2. */
  const Endpoints: seq<string> := ["bluetooth/search", "cell/search", "network/search"]

  /** The page size the query asks for. */
  const PageSize: int := 100

  /** `api_endpoints[api_type]`: Python indexing, so -3..-1 count from
      the end; any other `api_type` raises IndexError (None) before any
      file is opened or request sent. */
  function Endpoint(apiType: int): (r: Option<string>)
    ensures r.Some? <==> -3 <= apiType < 3
    ensures r.Some? ==> r.value == Endpoints[apiType % 3]
  {
    if 0 <= apiType < 3 then Some(Endpoints[apiType])
    else if -3 <= apiType < 0 then Some(Endpoints[apiType + 3])
    else None
  }

  /** The file name: `os.path.join("output", f"{prefix}_{timestamp}.csv")`
      with `prefix` the endpoint's first path segment. */
  function OutputFileName(apiType: int, timestamp: string): Option<string>
  {
    match Endpoint(apiType)
    case None => None
    case Some(e) => Some(Join("output", SplitHead(e, '/') + "_" + timestamp + ".csv"))
  }

  /** The URL every request of the session goes to. */
  function RequestUrl(apiType: int): Option<string>
  {
    match Endpoint(apiType)
    case None => None
    case Some(e) => Some(BaseUrl + e)
  }

  /** `str(b)` for a Python bool. */
  function PyBoolStr(b: bool): string
  {
    if b then "True" else "False"
  }

  /** `str.lower()` on ASCII text. */
  function LowerAscii(s: string): (r: string)
    ensures |r| == |s|
    ensures forall i | 0 <= i < |s| :: r[i] == if 'A' <= s[i] <= 'Z' then (s[i] as int + 32) as char else s[i]
    decreases |s|
  {
    if |s| == 0 then ""
    else [if 'A' <= s[0] <= 'Z' then (s[0] as int + 32) as char else s[0]] + LowerAscii(s[1..])
  }

  /** The query string parameters: `onlymine`, `first`, `lastupdt`, and
      `start` once a page has arrived. */
  datatype Query = Query(onlymine: string, first: int, lastupdt: string, start: Option<int>)

  /** `query_params` as first built, before any `start` is set. */
  function InitialQuery(onlyMine: bool, lastUpdated: string): (q: Query)
    ensures q.onlymine == (if onlyMine then "true" else "false")
    ensures q.first == PageSize && q.lastupdt == lastUpdated && q.start == None
  {
    Query(LowerAscii(PyBoolStr(onlyMine)), PageSize, lastUpdated, None)
  }

  /** The file and URL of an endpoint `kind + "/search"`. */
  lemma KindFiles(kind: string, timestamp: string)
    requires |kind| > 0 && forall i | 0 <= i < |kind| :: kind[i] != '/'
    ensures Join("output", SplitHead(kind + "/search", '/') + "_" + timestamp + ".csv")
            == "output/" + kind + "_" + timestamp + ".csv"
  {
    assert kind + "/search" == kind + ['/'] + "search";
    SplitHeadOf(kind, '/', "search");
    var name := kind + "_" + timestamp + ".csv";
    assert name[0] == kind[0];
    JoinRelative("output", name);
    assert "output" + "/" == "output/";
  }

  /** The first path segment of each endpoint, in `api_type` order. */
  const Kinds: seq<string> := ["bluetooth", "cell", "network"]

  lemma EndpointKind(k: int)
    requires 0 <= k < 3
    ensures Endpoints[k] == Kinds[k] + "/search"
    ensures |Kinds[k]| > 0 && forall i | 0 <= i < |Kinds[k]| :: Kinds[k][i] != '/'
  {
    if k == 0 {
      assert Endpoints[0] == Kinds[0] + "/search";
    } else if k == 1 {
      assert Endpoints[1] == Kinds[1] + "/search";
    } else {
      assert Endpoints[2] == Kinds[2] + "/search";
    }
  }

  /** Each endpoint writes to a file named after its kind, and its
      requests go to the matching URL. 0 is bluetooth, 1 cell, 2 network,
      and -1, -2, -3 repeat network, cell, bluetooth. */
  lemma EndpointFiles(apiType: int, timestamp: string)
    requires -3 <= apiType < 3
    ensures var kind := Kinds[apiType % 3];
            && OutputFileName(apiType, timestamp) == Some("output/" + kind + "_" + timestamp + ".csv")
            && RequestUrl(apiType) == Some(BaseUrl + kind + "/search")
  {
    var k := apiType % 3;
    var kind := Kinds[k];
    EndpointKind(k);
    KindFiles(kind, timestamp);
    assert BaseUrl + (kind + "/search") == BaseUrl + kind + "/search";
  }

  /** An `api_type` outside -3..2 fails before anything else happens. */
  lemma BadApiType(apiType: int, timestamp: string)
    requires !(-3 <= apiType < 3)
    ensures OutputFileName(apiType, timestamp) == None && RequestUrl(apiType) == None
  {
  }

  /** The endpoints of the combined script are those of the single-purpose
      ones: api_type 0 asks the URL bluetooth.py uses, and 2 the one that
      wifi.py and wigle.py use. */
  lemma SameUrls()
    ensures RequestUrl(0) == Some("https://api.wigle.net/api/v2/bluetooth/search")
    ensures RequestUrl(2) == Some("https://api.wigle.net/api/v2/network/search")
  {
    assert BaseUrl + Endpoints[0] == "https://api.wigle.net/api/v2/bluetooth/search";
    assert BaseUrl + Endpoints[2] == "https://api.wigle.net/api/v2/network/search";
  }
}
