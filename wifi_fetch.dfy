/**
  The request loop of `send_request` in wifi.py: page through the network
  search endpoint, keep every page in memory (`total_results`), retry only
  connection errors, and write one CSV file at the end, unless the loop
  left through a `return`.

  `Run` is the loop as a function of the endpoint's scripted responses;
  `SendRequest` is the loop with its save step and is proved to compute
  `Run`; the lemmas state what the loop guarantees.
 */
module WifiFetch {
  import opened FetchCommon
  import opened CsvSink

  /** The end of the loop: the final cursor, `total_results`, the `start`
      parameter of every request sent, and why the loop stopped. */
  datatype Session<R> = Session(cursor: Cursor, results: seq<R>, sent: seq<Option<int>>, reason: Stop)

  /** The only response this loop retries. */
  predicate Retried<R>(o: Outcome<R>)
  {
    o.ConnErr?
  }

  function ConnErrors<R>(outs: seq<Outcome<R>>): nat
    decreases |outs|
  {
    if |outs| == 0 then 0 else (if Retried(outs[0]) then 1 else 0) + ConnErrors(outs[1..])
  }

  /** The exits that fall through to the save step: `break` on completion
      or on 429, and the loop condition on `retries`. The others are
      `return`s. */
  predicate ReachesSave(reason: Stop)
  {
    reason == Completed || reason == RateLimited || reason == RetriesExhausted
  }

  datatype Step<R> =
    | Next(cursor: Cursor, results: seq<R>)
    | Halt(cursor: Cursor, results: seq<R>, reason: Stop)

  /** One pass of the loop body on response `o`, with `acc` the results so
      far. A timeout, too many redirects or any other exception is caught
      by the generic handler and returns. */
  function StepOf<R>(c: Cursor, o: Outcome<R>, acc: seq<R>): Step<R>
  {
    match o
    case Ok(results, reported) =>
      var current := c.current + |results|;
      var total := if c.total.Some? then c.total.value else reported;
      if current >= total then Halt(Cursor(current, Some(total), c.retries, c.start), acc + results, Completed)
      else Next(Cursor(current, Some(total), c.retries, Some(current)), acc + results)
    case S401 => Halt(c, acc, Unauthorized)
    case S429 => Halt(c, acc, RateLimited)
    case SOther(code) => Halt(c, acc, HttpError(code))
    case ConnErr => Next(c.(retries := c.retries + 1), acc)
    case Timeout => Halt(c, acc, Failed)
    case Redirects => Halt(c, acc, Failed)
    case OtherExc => Halt(c, acc, Failed)
  }

  /** The loop with `max_retries == maxRetries`, from cursor `c` with the
      results `acc` already kept. */
  function Run<R>(maxRetries: int, c: Cursor, outs: seq<Outcome<R>>, acc: seq<R>): (r: Session<R>)
    ensures |r.sent| <= |outs|
    decreases |outs|
  {
    if c.retries >= maxRetries then Session(c, acc, [], RetriesExhausted)
    else if |outs| == 0 then Session(c, acc, [], NoMoreOutcomes)
    else
      match StepOf(c, outs[0], acc)
      case Halt(c', acc', reason) => Session(c', acc', [c.start], reason)
      case Next(c', acc') =>
        var r' := Run(maxRetries, c', outs[1..], acc');
        r'.(sent := [c.start] + r'.sent)
  }

  /** What one pass of the loop body does: a success extends the results
      by its page, adds its length to `current_count` and fixes
      `total_count` if unknown; a connection error adds one to `retries`.
      The loop goes on exactly after a connection error or a success that
      leaves `current_count < total_count`, and then `start` is
      `current_count` after a success and unchanged after a retry. */
  lemma StepCursor<R>(c: Cursor, o: Outcome<R>, acc: seq<R>)
    ensures var st := StepOf(c, o, acc);
            && st.results == acc + BatchOf(o)
            && st.cursor.current == c.current + |BatchOf(o)|
            && st.cursor.total == TotalAfter(c.total, [o])
            && st.cursor.retries == c.retries + (if Retried(o) then 1 else 0)
            && (st.Next? <==> Retried(o) || (o.Ok? && st.cursor.current < st.cursor.total.value))
            && (st.Next? ==> st.cursor.start == if o.Ok? then Some(st.cursor.current) else c.start)
  {
    assert FirstTotal([o]) == if o.Ok? then Some(o.totalResults) else FirstTotal([o][1..]);
    if !o.Ok? {
      assert acc + [] == acc;
    }
  }

  /** Why one pass of the loop body stops it. */
  lemma StepExit<R>(c: Cursor, o: Outcome<R>, acc: seq<R>)
    ensures var st := StepOf(c, o, acc);
            st.Halt? ==> match o
              case Ok(_, _) => st.reason == Completed && st.cursor.current >= st.cursor.total.value
              case S401 => st.reason == Unauthorized
              case S429 => st.reason == RateLimited
              case SOther(code) => st.reason == HttpError(code)
              case ConnErr => false
              case _ => st.reason == Failed
  {
  }

  /** `total_results` is the in-order concatenation of every page received,
      and `current_count` grows with it by exactly the pages' lengths. */
  lemma {:induction false} RunAccumulates<R>(maxRetries: int, c: Cursor, outs: seq<Outcome<R>>, acc: seq<R>)
    ensures var r := Run(maxRetries, c, outs, acc);
            && r.results == acc + OkRows(outs[..|r.sent|])
            && r.cursor.current == c.current + |OkRows(outs[..|r.sent|])|
    decreases |outs|
  {
    var r := Run(maxRetries, c, outs, acc);
    if c.retries >= maxRetries || |outs| == 0 {
      assert outs[..0] == [];
    } else {
      var st := StepOf(c, outs[0], acc);
      StepCursor(c, outs[0], acc);
      PrefixCons(outs, |r.sent|);
      if st.Next? {
        var r' := Run(maxRetries, st.cursor, outs[1..], st.results);
        RunAccumulates(maxRetries, st.cursor, outs[1..], st.results);
        assert r.results == r'.results;
        Assoc(acc, BatchOf(outs[0]), OkRows(outs[1..][..|r'.sent|]));
      } else {
        assert outs[1..][..0] == [];
        assert OkRows(outs[1..][..0]) == [];
      }
    }
  }

  /** `total_count` is taken from the first successful response and never
      changes afterwards. */
  lemma {:induction false} RunTotalFromFirstSuccess<R>(maxRetries: int, c: Cursor, outs: seq<Outcome<R>>, acc: seq<R>)
    ensures var r := Run(maxRetries, c, outs, acc);
            r.cursor.total == TotalAfter(c.total, outs[..|r.sent|])
    decreases |outs|
  {
    var r := Run(maxRetries, c, outs, acc);
    if c.retries >= maxRetries || |outs| == 0 {
      assert outs[..0] == [];
    } else {
      var st := StepOf(c, outs[0], acc);
      StepCursor(c, outs[0], acc);
      PrefixCons(outs, |r.sent|);
      if st.Next? {
        RunTotalFromFirstSuccess(maxRetries, st.cursor, outs[1..], st.results);
      } else {
        assert outs[1..][..0] == [];
      }
    }
  }

  lemma ConnErrorsCons<R>(outs: seq<Outcome<R>>, k: nat)
    requires 0 < k <= |outs|
    ensures ConnErrors(outs[..k]) == (if Retried(outs[0]) then 1 else 0) + ConnErrors(outs[1..][..k - 1])
  {
    assert outs[..k][0] == outs[0] && outs[..k][1..] == outs[1..][..k - 1];
  }

  /** Only connection errors count as retries, `retries` is never reset,
      and the loop ends once it reaches `max_retries`: a session sees at
      most `max_retries` connection errors (none at all if `max_retries`
      is not positive). */
  lemma {:induction false} RunRetryBound<R>(maxRetries: int, c: Cursor, outs: seq<Outcome<R>>, acc: seq<R>)
    ensures var r := Run(maxRetries, c, outs, acc);
            && r.cursor.retries == c.retries + ConnErrors(outs[..|r.sent|])
            && (c.retries <= maxRetries ==> r.cursor.retries <= maxRetries)
            && (c.retries >= maxRetries ==> |r.sent| == 0)
            && (r.reason == RetriesExhausted <==> r.cursor.retries >= maxRetries)
    decreases |outs|
  {
    var r := Run(maxRetries, c, outs, acc);
    if c.retries >= maxRetries || |outs| == 0 {
      assert outs[..0] == [];
    } else {
      var st := StepOf(c, outs[0], acc);
      StepCursor(c, outs[0], acc);
      ConnErrorsCons(outs, |r.sent|);
      if st.Next? {
        RunRetryBound(maxRetries, st.cursor, outs[1..], st.results);
      } else {
        assert outs[1..][..0] == [];
      }
    }
  }

  /** How the loop stops: only successes and connection errors let it go
      on. A timeout, too many redirects or any other exception returns at
      once (`Failed`), as do 401 and any status other than 200 and 429;
      429 and completion break out of the loop. */
  lemma {:induction false} RunStopReason<R>(maxRetries: int, c: Cursor, outs: seq<Outcome<R>>, acc: seq<R>)
    ensures var r := Run(maxRetries, c, outs, acc); var k := |r.sent|;
            && (forall j | 0 <= j < k - 1 :: outs[j].Ok? || Retried(outs[j]))
            && (r.reason == NoMoreOutcomes ==>
                  && k == |outs|
                  && (k == 0 || Retried(outs[k - 1]) ||
                      (outs[k - 1].Ok? && r.cursor.total.Some? && r.cursor.current < r.cursor.total.value)))
            && (r.reason == RetriesExhausted ==> k == 0 || Retried(outs[k - 1]))
            && (r.reason == Completed ==>
                  k > 0 && outs[k - 1].Ok? && r.cursor.total.Some? && r.cursor.current >= r.cursor.total.value)
            && (r.reason == Unauthorized ==> k > 0 && outs[k - 1].S401?)
            && (r.reason == RateLimited ==> k > 0 && outs[k - 1].S429?)
            && (r.reason.HttpError? ==> k > 0 && outs[k - 1] == SOther(r.reason.code))
            && (r.reason == Failed ==> k > 0 && (outs[k - 1].Timeout? || outs[k - 1].Redirects? || outs[k - 1].OtherExc?))
            && r.reason != TooManyRedirects
    decreases |outs|
  {
    var r := Run(maxRetries, c, outs, acc);
    if c.retries < maxRetries && |outs| > 0 {
      var st := StepOf(c, outs[0], acc);
      StepCursor(c, outs[0], acc);
      StepExit(c, outs[0], acc);
      if st.Next? {
        var rest := outs[1..];
        var r' := Run(maxRetries, st.cursor, rest, st.results);
        RunStopReason(maxRetries, st.cursor, rest, st.results);
        var k := |r.sent|;
        forall j | 0 <= j < k - 1 ensures outs[j].Ok? || Retried(outs[j]) {
          if j > 0 { assert outs[j] == rest[j - 1]; }
        }
        if k > 1 { assert outs[k - 1] == rest[k - 2]; }
      }
    }
  }

  /** Every request after the first success asks for `start ==
      current_count`; a retry repeats the previous `start`. */
  lemma {:induction false} RunRequestStarts<R>(maxRetries: int, c: Cursor, outs: seq<Outcome<R>>, acc: seq<R>)
    ensures var r := Run(maxRetries, c, outs, acc);
            forall j | 0 <= j < |r.sent| :: r.sent[j] == StartAfter(c, outs[..j])
    decreases |outs|
  {
    var r := Run(maxRetries, c, outs, acc);
    if c.retries < maxRetries && |outs| > 0 {
      var st := StepOf(c, outs[0], acc);
      StepCursor(c, outs[0], acc);
      assert outs[..0] == [];
      assert !HasOk(outs[..0]);
      if st.Next? {
        var rest := outs[1..];
        var r' := Run(maxRetries, st.cursor, rest, st.results);
        RunRequestStarts(maxRetries, st.cursor, rest, st.results);
        forall j | 0 < j < |r.sent| ensures r.sent[j] == StartAfter(c, outs[..j]) {
          assert r.sent[j] == r'.sent[j - 1];
          assert outs[..j] == [outs[0]] + rest[..j - 1];
          StartAfterCons(c, st.cursor, outs[0], rest[..j - 1]);
        }
      }
    }
  }

  /** While the loop goes on, every success left `current_count` below
      `total_count`; with `RunStopReason`, the loop stops after a success
      exactly when `current_count >= total_count`. */
  lemma {:induction false} RunContinuesBelowTotal<R>(maxRetries: int, c: Cursor, outs: seq<Outcome<R>>, acc: seq<R>)
    ensures var r := Run(maxRetries, c, outs, acc);
            forall j | 0 <= j < |r.sent| - 1 && outs[j].Ok? ::
              var t := TotalAfter(c.total, outs[..j + 1]);
              t.Some? && c.current + |OkRows(outs[..j + 1])| < t.value
    decreases |outs|
  {
    var r := Run(maxRetries, c, outs, acc);
    if c.retries < maxRetries && |outs| > 0 {
      var o := outs[0];
      var st := StepOf(c, o, acc);
      StepCursor(c, o, acc);
      if st.Next? {
        var rest := outs[1..];
        var r' := Run(maxRetries, st.cursor, rest, st.results);
        RunContinuesBelowTotal(maxRetries, st.cursor, rest, st.results);
        assert FirstTotal([o]) == if o.Ok? then Some(o.totalResults) else FirstTotal([o][1..]);
        forall j | 0 <= j < |r.sent| - 1 && outs[j].Ok?
          ensures var t := TotalAfter(c.total, outs[..j + 1]);
                  t.Some? && c.current + |OkRows(outs[..j + 1])| < t.value
        {
          PrefixCons(outs, j + 1);
          if j == 0 {
            assert outs[1..][..0] == [];
          } else {
            assert outs[j] == rest[j - 1];
          }
        }
      }
    }
  }

  /** The responses after which the loop falls through to the save step:
      `retries` has reached `max_retries`, or the last response received
      is a 429 or a success that brings `current_count` to `total_count`. */
  predicate FallsThrough<R>(maxRetries: int, c: Cursor, seen: seq<Outcome<R>>)
  {
    || c.retries >= maxRetries
    || (|seen| > 0 && (seen[|seen| - 1].S429? ||
          (seen[|seen| - 1].Ok? && c.total.Some? && c.current >= c.total.value)))
  }

  /** Whether the loop reaches the save step is decided by the responses
      alone, not by the model's own `NoMoreOutcomes`: a final 429 or a
      completing success saves, whether or not more responses would have
      followed. */
  lemma SaveByResponses<R>(maxRetries: int, c: Cursor, outs: seq<Outcome<R>>, acc: seq<R>)
    ensures var r := Run(maxRetries, c, outs, acc);
            ReachesSave(r.reason) <==> FallsThrough(maxRetries, r.cursor, outs[..|r.sent|])
  {
    var r := Run(maxRetries, c, outs, acc);
    var k := |r.sent|;
    RunStopReason(maxRetries, c, outs, acc);
    RunRetryBound(maxRetries, c, outs, acc);
    if k > 0 {
      assert outs[..k][k - 1] == outs[k - 1];
    }
  }

  /** The save step after the loop: a file is written iff the loop fell
      through and `total_results` is not empty; it is appended to, with a
      header iff the file did not exist. */
  function SavedFile<R>(reason: Stop, results: seq<R>, isFile: bool, lines: seq<Line<R>>): seq<Line<R>>
  {
    if ReachesSave(reason) && |results| > 0 then lines + Frame(results, !isFile) else lines
  }

  /** A whole session from a fresh cursor: the file gains exactly the
      records of the pages received, in order, when the loop fell through
      with at least one record, and is left as it was otherwise; in
      particular a 401, an unexpected status or any exception but a
      connection error loses every page already received. */
  lemma FreshSession<R>(maxRetries: int, outs: seq<Outcome<R>>, isFile: bool, lines: seq<Line<R>>)
    ensures var r := Run(maxRetries, Fresh, outs, []); var seen := outs[..|r.sent|];
            var saved := SavedFile(r.reason, r.results, isFile, lines);
            && r.results == OkRows(seen)
            && r.cursor.current == |r.results|
            && r.cursor.total == FirstTotal(seen)
            && ConnErrors(seen) <= (if maxRetries < 0 then 0 else maxRetries)
            && (saved != lines <==> ReachesSave(r.reason) && |OkRows(seen)| > 0)
            && (saved != lines <==> FallsThrough(maxRetries, r.cursor, seen) && |OkRows(seen)| > 0)
            && saved[..|lines|] == lines
            && DataRows(saved) == DataRows(lines) + (if ReachesSave(r.reason) then OkRows(seen) else [])
            && HeaderCount(saved) == HeaderCount(lines) + (if !isFile && ReachesSave(r.reason) && |OkRows(seen)| > 0 then 1 else 0)
  {
    var r := Run(maxRetries, Fresh, outs, []);
    RunAccumulates(maxRetries, Fresh, outs, []);
    RunTotalFromFirstSuccess(maxRetries, Fresh, outs, []);
    RunRetryBound(maxRetries, Fresh, outs, []);
    SaveByResponses(maxRetries, Fresh, outs, []);
    assert [] + OkRows(outs[..|r.sent|]) == OkRows(outs[..|r.sent|]);
    AppendFrame(lines, r.results, !isFile);
    if ReachesSave(r.reason) && |r.results| > 0 {
      assert |SavedFile(r.reason, r.results, isFile, lines)| > |lines|;
    }
  }

  /** The loop, resumed from cursor `c` with `rest` still to come, the
      results `acc` kept and the requests `sent` already made, ends as
      `whole`. */
  ghost predicate Resumes<R>(whole: Session<R>, maxRetries: int, c: Cursor, rest: seq<Outcome<R>>, acc: seq<R>, sent: seq<Option<int>>)
  {
    var r := Run(maxRetries, c, rest, acc);
    whole == r.(sent := sent + r.sent)
  }

  lemma ResumeStep<R>(whole: Session<R>, maxRetries: int, c: Cursor, outs: seq<Outcome<R>>, i: nat, acc: seq<R>, sent: seq<Option<int>>)
    requires i < |outs| && Resumes(whole, maxRetries, c, outs[i..], acc, sent)
    requires c.retries < maxRetries
    ensures var st := StepOf(c, outs[i], acc);
            if st.Halt? then whole == Session(st.cursor, st.results, sent + [c.start], st.reason)
            else Resumes(whole, maxRetries, st.cursor, outs[i + 1..], st.results, sent + [c.start])
  {
    var rest := outs[i..];
    assert rest[0] == outs[i] && rest[1..] == outs[i + 1..];
    var st := StepOf(c, rest[0], acc);
    if st.Next? {
      var r' := Run(maxRetries, st.cursor, rest[1..], st.results);
      assert sent + ([c.start] + r'.sent) == (sent + [c.start]) + r'.sent;
    }
  }

  /** The loop ends without a request: `retries` has reached the bound,
      or no response is left. */
  lemma ResumeEnd<R>(whole: Session<R>, maxRetries: int, c: Cursor, outs: seq<Outcome<R>>, i: nat, acc: seq<R>, sent: seq<Option<int>>)
    requires i <= |outs| && Resumes(whole, maxRetries, c, outs[i..], acc, sent)
    requires c.retries >= maxRetries || i == |outs|
    ensures whole == Session(c, acc, sent, if c.retries >= maxRetries then RetriesExhausted else NoMoreOutcomes)
  {
    assert sent + [] == sent;
  }

  /** One pass of the loop body on response `o`, on the loop's variables;
      `stop` is the exit taken, if any. */
  method Pass<R>(current: int, total: Option<int>, retries: int, start: Option<int>, o: Outcome<R>, results: seq<R>)
    returns (current1: int, total1: Option<int>, retries1: int, start1: Option<int>, results1: seq<R>, stop: Option<Stop>)
    ensures var c1 := Cursor(current1, total1, retries1, start1);
            StepOf(Cursor(current, total, retries, start), o, results)
              == if stop.Some? then Halt(c1, results1, stop.value) else Next(c1, results1)
  {
    current1, total1, retries1, start1, results1, stop := current, total, retries, start, results, None;
    match o {
      case Ok(page, reported) =>
        results1 := results + page;
        current1 := current + |page|;
        if total.None? {
          total1 := Some(reported);
        }
        if current1 >= total1.value {
          stop := Some(Completed);
        } else {
          start1 := Some(current1);
        }
      case S401 =>
        stop := Some(Unauthorized);
      case S429 =>
        stop := Some(RateLimited);
      case SOther(code) =>
        stop := Some(HttpError(code));
      case ConnErr =>
        retries1 := retries + 1;
      case Timeout =>
        stop := Some(Failed);
      case Redirects =>
        stop := Some(Failed);
      case OtherExc =>
        stop := Some(Failed);
    }
  }

  /** The `while retries < max_retries` loop of `send_request` in wifi.py,
      which touches no file. */
  method FetchAll<R>(outs: seq<Outcome<R>>, maxRetries: int)
    returns (cursor: Cursor, results: seq<R>, sent: seq<Option<int>>, reason: Stop)
    ensures Run(maxRetries, Fresh, outs, []) == Session(cursor, results, sent, reason)
  {
    ghost var whole := Run(maxRetries, Fresh, outs, []);
    results := [];
    var current := 0;
    var total: Option<int> := None;
    var retries := 0;
    var start: Option<int> := None;
    sent := [];
    reason := RetriesExhausted;
    var i := 0;
    assert outs[0..] == outs;
    while retries < maxRetries
      invariant 0 <= i <= |outs|
      invariant Resumes(whole, maxRetries, Cursor(current, total, retries, start), outs[i..], results, sent)
      decreases |outs| - i
    {
      if i == |outs| {
        reason := NoMoreOutcomes;
        ResumeEnd(whole, maxRetries, Cursor(current, total, retries, start), outs, i, results, sent);
        break;
      }
      ResumeStep(whole, maxRetries, Cursor(current, total, retries, start), outs, i, results, sent);
      sent := sent + [start];
      var stop;
      current, total, retries, start, results, stop := Pass(current, total, retries, start, outs[i], results);
      i := i + 1;
      if stop.Some? {
        reason := stop.value;
        break;
      }
    }
    if retries >= maxRetries {
      ResumeEnd(whole, maxRetries, Cursor(current, total, retries, start), outs, i, results, sent);
    }
    cursor := Cursor(current, total, retries, start);
  }

  /** `send_request` of wifi.py: the loop, then the save step. `written`
      tells whether the file was written. */
  method SendRequest<R>(outs: seq<Outcome<R>>, maxRetries: int, f: CsvFile<R>)
    returns (cursor: Cursor, results: seq<R>, sent: seq<Option<int>>, reason: Stop, written: bool)
    requires f.Valid()
    modifies f
    ensures f.Valid()
    ensures Run(maxRetries, Fresh, outs, []) == Session(cursor, results, sent, reason)
    ensures written == (ReachesSave(reason) && |results| > 0)
    ensures f.lines == SavedFile(reason, results, old(f.isFile), old(f.lines))
    ensures f.isFile == (old(f.isFile) || written)
  {
    cursor, results, sent, reason := FetchAll(outs, maxRetries);
    written := false;
    if ReachesSave(reason) && |results| > 0 {
      f.AppendCsv(results, !f.isFile);
      written := true;
    }
  }
}
