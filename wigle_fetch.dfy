/**
  `send_request` of wigle.py: a single request for one page of network
  search results, repeated only while the endpoint answers 429, at most
  `max_retries` times in all. A 200 answer overwrites the output CSV with
  that page; every other status and every exception ends the call with
  nothing written.
 */
module WigleFetch {
  import opened FetchCommon
  import opened CsvSink

  /** The end of a call: the final `retries`, the number of requests sent,
      why it stopped, and the page written to the file, if any. */
  datatype Session<R> = Session(retries: int, requests: nat, reason: Stop, page: Option<seq<R>>)

  /** The responses that end the call, as opposed to running out of
      retries or out of scripted responses. */
  predicate ByResponse(reason: Stop)
  {
    reason != RetriesExhausted && reason != NoMoreOutcomes
  }

  /** The loop from `retries` on. There is no 401 branch: a 401 is among
      the statuses reported as errors; no exception is retried. */
  function Run<R>(maxRetries: int, retries: int, outs: seq<Outcome<R>>): (r: Session<R>)
    ensures r.requests <= |outs|
    decreases |outs|
  {
    if retries >= maxRetries then Session(retries, 0, RetriesExhausted, None)
    else if |outs| == 0 then Session(retries, 0, NoMoreOutcomes, None)
    else
      match outs[0]
      case Ok(results, _) => Session(retries, 1, Completed, Some(results))
      case S429 =>
        var r' := Run(maxRetries, retries + 1, outs[1..]);
        r'.(requests := 1 + r'.requests)
      case S401 => Session(retries, 1, HttpError(401), None)
      case SOther(code) => Session(retries, 1, HttpError(code), None)
      case Timeout => Session(retries, 1, Failed, None)
      case ConnErr => Session(retries, 1, Failed, None)
      case Redirects => Session(retries, 1, Failed, None)
      case OtherExc => Session(retries, 1, Failed, None)
  }

  /** Every request but the last was answered 429 and counted as one
      retry; the call asks at most `max_retries - retries` times; it fails
      for lack of retries exactly when `retries` reached `max_retries`;
      a page is kept exactly when the last answer was a 200, and it is the
      page that answer carried; any other answer names the reason. */
  lemma {:induction false} RunOutcome<R>(maxRetries: int, retries: int, outs: seq<Outcome<R>>)
    ensures var r := Run(maxRetries, retries, outs); var k := r.requests;
            && (forall j | 0 <= j < k - 1 :: outs[j].S429?)
            && (!ByResponse(r.reason) ==> forall j | 0 <= j < k :: outs[j].S429?)
            && r.retries == retries + k - (if ByResponse(r.reason) then 1 else 0)
            && k <= (if maxRetries > retries then maxRetries - retries else 0)
            && (retries <= maxRetries ==> r.retries <= maxRetries)
            && (r.reason == RetriesExhausted <==> r.retries >= maxRetries)
            && (r.reason == NoMoreOutcomes ==> k == |outs|)
            && (ByResponse(r.reason) ==> k > 0 && !outs[k - 1].S429?)
            && (r.page.Some? <==> r.reason == Completed)
            && (r.reason == Completed ==> outs[k - 1].Ok? && r.page.value == outs[k - 1].results)
            && (r.reason.HttpError? ==> outs[k - 1] == SOther(r.reason.code) || (outs[k - 1].S401? && r.reason.code == 401))
            && (r.reason == Failed ==> outs[k - 1].Timeout? || outs[k - 1].ConnErr? || outs[k - 1].Redirects? || outs[k - 1].OtherExc?)
            && r.reason != Unauthorized && r.reason != RateLimited && r.reason != TooManyRedirects
    decreases |outs|
  {
    if retries < maxRetries && |outs| > 0 && outs[0].S429? {
      var rest := outs[1..];
      var r' := Run(maxRetries, retries + 1, rest);
      RunOutcome(maxRetries, retries + 1, rest);
      forall j | 0 < j < 1 + r'.requests ensures outs[j] == rest[j - 1] { }
    }
  }

  /** Nothing but 429 answers, at least `max_retries` of them: the call
      sends exactly `max_retries` requests and gives up with nothing
      written. */
  lemma {:induction false} AllThrottled<R>(maxRetries: nat, retries: nat, outs: seq<Outcome<R>>)
    requires retries <= maxRetries <= retries + |outs|
    requires forall j | 0 <= j < |outs| :: outs[j].S429?
    ensures var r := Run(maxRetries, retries, outs);
            r.reason == RetriesExhausted && r.requests == maxRetries - retries && r.page == None
            && r.retries == maxRetries
    decreases maxRetries - retries
  {
    if retries < maxRetries {
      assert outs[0].S429?;
      forall j | 0 <= j < |outs[1..]| ensures outs[1..][j].S429? {
        assert outs[1..][j] == outs[j + 1];
      }
      AllThrottled(maxRetries, retries + 1, outs[1..]);
    }
  }

  /** `send_request` of wigle.py against the scripted responses `outs`,
      writing to `f`. */
  method SendRequest<R>(outs: seq<Outcome<R>>, maxRetries: int, f: CsvFile<R>)
    returns (retries: int, requests: nat, reason: Stop)
    requires f.Valid()
    modifies f
    ensures f.Valid()
    ensures var r := Run(maxRetries, 0, outs);
            retries == r.retries && requests == r.requests && reason == r.reason
            && (if r.page.Some? then f.isFile && f.lines == Frame(r.page.value, true)
                else f.isFile == old(f.isFile) && f.lines == old(f.lines))
  {
    ghost var whole := Run(maxRetries, 0, outs);
    retries := 0;
    requests := 0;
    reason := RetriesExhausted;
    assert outs[0..] == outs;
    while retries < maxRetries
      invariant 0 <= requests <= |outs| && retries == requests
      invariant f.isFile == old(f.isFile) && f.lines == old(f.lines)
      invariant whole == Run(maxRetries, retries, outs[requests..]).(requests := requests + Run(maxRetries, retries, outs[requests..]).requests)
      decreases |outs| - requests
    {
      if requests == |outs| {
        reason := NoMoreOutcomes;
        return;
      }
      var o := outs[requests];
      assert outs[requests..][0] == o && outs[requests..][1..] == outs[requests + 1..];
      requests := requests + 1;
      match o {
        case Ok(results, _) =>
          f.OverwriteCsv(results);
          reason := Completed;
          return;
        case S429 =>
          retries := retries + 1;
        case S401 =>
          reason := HttpError(401);
          return;
        case SOther(code) =>
          reason := HttpError(code);
          return;
        case Timeout =>
          reason := Failed;
          return;
        case ConnErr =>
          reason := Failed;
          return;
        case Redirects =>
          reason := Failed;
          return;
        case OtherExc =>
          reason := Failed;
          return;
      }
    }
  }
}
