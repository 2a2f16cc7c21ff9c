/**
  Vocabulary shared by the three request loops: the responses of the remote
  search endpoint, the pagination cursor the loops keep, and views of a
  sequence of responses (the rows they carried, the first reported total).
 */
module FetchCommon {

  datatype Option<T> = None | Some(value: T)

  /** One attempt at `requests.get` against the search endpoint, as the loops
      classify it: a 200 answer with its `results` and `totalResults`, one of
      the status codes they test for, or one of the exceptions they catch.
      `SOther` stands for every status other than 200, 401 and 429; `Timeout`
      is a timeout that is not also a connection error (a read timeout), while
      a connect timeout is a `ConnErr`. */
  datatype Outcome<R> =
    | Ok(results: seq<R>, totalResults: int)
    | S401
    | S429
    | SOther(code: int)
    | Timeout
    | ConnErr
    | Redirects
    | OtherExc

  /** The loop's local state: `current_count`, `total_count` (None until the
      first success), `retries`, and the `start` query parameter (absent from
      the first request). */
  datatype Cursor = Cursor(current: int, total: Option<int>, retries: int, start: Option<int>)

  /** The cursor every session starts from. */
  const Fresh: Cursor := Cursor(0, None, 0, None)

  /** Why a session ended. `NoMoreOutcomes` is the model's own: the
      script of responses ran out while the loop still wanted to send a
      request. Each loop uses the subset its code can reach. */
  datatype Stop =
    | Completed          // a success ended the loop
    | Unauthorized       // status 401
    | RateLimited        // status 429
    | HttpError(code: int)
    | TooManyRedirects
    | Failed             // an exception the loop does not retry
    | RetriesExhausted   // the loop condition on `retries` failed
    | NoMoreOutcomes

  /** `total_count` after a prefix of the responses: kept if known, else
      taken from the first success. */
  function TotalAfter<R>(known: Option<int>, outs: seq<Outcome<R>>): Option<int>
  {
    if known.Some? then known else FirstTotal(outs)
  }

  lemma Assoc<T>(a: seq<T>, b: seq<T>, c: seq<T>)
    ensures (a + b) + c == a + (b + c)
  {
  }

  /** The rows one response carries. */
  function BatchOf<R>(o: Outcome<R>): seq<R>
  {
    if o.Ok? then o.results else []
  }

  /** The rows of all successful responses, in arrival order. */
  function OkRows<R>(outs: seq<Outcome<R>>): seq<R>
    decreases |outs|
  {
    if |outs| == 0 then [] else BatchOf(outs[0]) + OkRows(outs[1..])
  }

  predicate HasOk<R>(outs: seq<Outcome<R>>)
  {
    exists i | 0 <= i < |outs| :: outs[i].Ok?
  }

  /** `totalResults` of the first successful response, if there is one. */
  function FirstTotal<R>(outs: seq<Outcome<R>>): Option<int>
    decreases |outs|
  {
    if |outs| == 0 then None
    else if outs[0].Ok? then Some(outs[0].totalResults)
    else FirstTotal(outs[1..])
  }

  /** Without a success there are no rows and no reported total. */
  lemma {:induction false} NoOkNothing<R>(outs: seq<Outcome<R>>)
    requires !HasOk(outs)
    ensures OkRows(outs) == [] && FirstTotal(outs) == None
    decreases |outs|
  {
    if |outs| > 0 {
      assert !outs[0].Ok?;
      assert !HasOk(outs[1..]) by {
        forall i | 0 <= i < |outs[1..]| ensures !outs[1..][i].Ok? {
          assert outs[1..][i] == outs[i + 1];
        }
      }
      NoOkNothing(outs[1..]);
    }
  }

  /** Taking one more response onto a prefix adds its rows at the end. */
  lemma {:induction false} OkRowsSnoc<R>(outs: seq<Outcome<R>>, j: nat)
    requires j < |outs|
    ensures OkRows(outs[..j + 1]) == OkRows(outs[..j]) + BatchOf(outs[j])
    decreases j
  {
    if j == 0 {
      assert outs[..1] == [outs[0]];
      assert OkRows(outs[..1]) == BatchOf(outs[0]) + OkRows(outs[..1][1..]);
      assert outs[..1][1..] == [];
    } else {
      var tail := outs[1..];
      assert outs[..j + 1][1..] == tail[..j];
      assert outs[..j][1..] == tail[..j - 1];
      OkRowsSnoc(tail, j - 1);
      assert tail[j - 1] == outs[j];
    }
  }

  /** A prefix that starts with a given response. */
  lemma PrefixCons<R>(outs: seq<Outcome<R>>, k: nat)
    requires 0 < k <= |outs|
    ensures outs[..k] == [outs[0]] + outs[1..][..k - 1]
    ensures OkRows(outs[..k]) == BatchOf(outs[0]) + OkRows(outs[1..][..k - 1])
    ensures FirstTotal(outs[..k]) == if outs[0].Ok? then Some(outs[0].totalResults) else FirstTotal(outs[1..][..k - 1])
    ensures HasOk(outs[..k]) == (outs[0].Ok? || HasOk(outs[1..][..k - 1]))
  {
    var p := outs[..k];
    assert p == [outs[0]] + outs[1..][..k - 1];
    assert p[0] == outs[0] && p[1..] == outs[1..][..k - 1];
    HasOkCons(outs[0], outs[1..][..k - 1]);
  }

  /** Taking one more response onto a prefix: it holds a success iff the
      prefix did or the new response is one. */
  lemma HasOkSnoc<R>(outs: seq<Outcome<R>>, j: nat)
    requires j < |outs|
    ensures HasOk(outs[..j + 1]) == (HasOk(outs[..j]) || outs[j].Ok?)
  {
    if HasOk(outs[..j]) {
      var i :| 0 <= i < j && outs[..j][i].Ok?;
      assert outs[..j + 1][i].Ok?;
    }
    if outs[j].Ok? {
      assert outs[..j + 1][j].Ok?;
    }
    if HasOk(outs[..j + 1]) {
      var i :| 0 <= i < j + 1 && outs[..j + 1][i].Ok?;
      if i < j {
        assert outs[..j][i].Ok?;
      }
    }
  }

  /** The `start` parameter a request carries after the responses `seen`:
      the `current_count` reached once a page has arrived, else whatever
      `start` was. */
  function StartAfter<R>(c: Cursor, seen: seq<Outcome<R>>): Option<int>
  {
    if HasOk(seen) then Some(c.current + |OkRows(seen)|) else c.start
  }

  /** Taking one more response onto a prefix: anything but a success
      keeps `start`; a success makes it the count reached. */
  lemma StartAfterSnoc<R>(c: Cursor, outs: seq<Outcome<R>>, j: nat)
    requires j < |outs|
    ensures !outs[j].Ok? ==> StartAfter(c, outs[..j + 1]) == StartAfter(c, outs[..j])
    ensures outs[j].Ok? ==> StartAfter(c, outs[..j + 1]) == Some(c.current + |OkRows(outs[..j + 1])|)
  {
    OkRowsSnoc(outs, j);
    HasOkSnoc(outs, j);
    if !HasOk(outs[..j]) {
      NoOkNothing(outs[..j]);
    }
  }

  /** A sequence that starts with `o` holds a success iff `o` is one or
      the rest holds one. */
  lemma HasOkCons<R>(o: Outcome<R>, tail: seq<Outcome<R>>)
    ensures HasOk([o] + tail) == (o.Ok? || HasOk(tail))
  {
    var p := [o] + tail;
    if o.Ok? {
      assert p[0].Ok?;
    }
    if HasOk(tail) {
      var i :| 0 <= i < |tail| && tail[i].Ok?;
      assert p[i + 1].Ok?;
    }
    if HasOk(p) {
      var i :| 0 <= i < |p| && p[i].Ok?;
      if i > 0 {
        assert tail[i - 1] == p[i];
      }
    }
  }

  lemma StartAfterCons<R>(c: Cursor, c': Cursor, o: Outcome<R>, tail: seq<Outcome<R>>)
    requires c'.current == c.current + |BatchOf(o)|
    requires c'.start == if o.Ok? then Some(c'.current) else c.start
    ensures StartAfter(c, [o] + tail) == StartAfter(c', tail)
  {
    var p := [o] + tail;
    assert p[0] == o && p[1..] == tail;
    assert OkRows(p) == BatchOf(o) + OkRows(tail);
    HasOkCons(o, tail);
    if !HasOk(tail) {
      NoOkNothing(tail);
    }
  }
}
