/**
  The streaming request loop of `send_request` in bluetooth.py and in
  BluetoothCellularWiFi.py (the two loops are the same code): page through
  the search endpoint, append every page to a CSV file opened for
  appending, retry timeouts and connection errors, stop on anything else.

  `Run` is the loop as a function of the endpoint's scripted responses;
  `SendRequest` is the loop itself and is proved to compute `Run`; the
  lemmas state what the loop guarantees.
 */
module PagedFetch {
  import opened FetchCommon
  import opened CsvSink

  /** `MAX_RETRIES`. */
  const MaxRetries: int := 3

  /** The end of a session: the final cursor, the file's lines, the `start`
      parameter of every request sent (None while `start` is absent), and
      why the loop stopped. */
  datatype Session<R> = Session(cursor: Cursor, file: seq<Line<R>>, sent: seq<Option<int>>, reason: Stop)

  /** The responses the loop retries. */
  predicate Transient<R>(o: Outcome<R>)
  {
    o.Timeout? || o.ConnErr?
  }

  function Transients<R>(outs: seq<Outcome<R>>): nat
    decreases |outs|
  {
    if |outs| == 0 then 0 else (if Transient(outs[0]) then 1 else 0) + Transients(outs[1..])
  }

  /** What the loop does with one response: go on from a new cursor, or
      stop; either way with the file as it then stands. */
  datatype Step<R> =
    | Next(cursor: Cursor, file: seq<Line<R>>)
    | Halt(cursor: Cursor, file: seq<Line<R>>, reason: Stop)

  /** One pass of the loop body on response `o`. */
  function StepOf<R>(c: Cursor, o: Outcome<R>, file: seq<Line<R>>): Step<R>
  {
    match o
    case Ok(results, reported) =>
      var current := c.current + |results|;
      var total := if c.total.Some? then c.total.value else reported;
      var file' := file + Frame(results, |file| == 0);
      if current >= total then Halt(Cursor(current, Some(total), c.retries, c.start), file', Completed)
      else Next(Cursor(current, Some(total), c.retries, Some(current)), file')
    case S401 => Halt(c, file, Unauthorized)
    case S429 => Halt(c, file, RateLimited)
    case SOther(code) => Halt(c, file, HttpError(code))
    case Timeout => Next(c.(retries := c.retries + 1), file)
    case ConnErr => Next(c.(retries := c.retries + 1), file)
    case Redirects => Halt(c, file, TooManyRedirects)
    case OtherExc => Halt(c, file, Failed)
  }

  /** The loop from cursor `c` on the file holding `file`, facing the
      responses `outs` in turn. */
  function Run<R>(c: Cursor, outs: seq<Outcome<R>>, file: seq<Line<R>>): (r: Session<R>)
    ensures |r.sent| <= |outs|
    ensures |file| <= |r.file| && r.file[..|file|] == file
    decreases |outs|
  {
    if c.retries >= MaxRetries then Session(c, file, [], RetriesExhausted)
    else if |outs| == 0 then Session(c, file, [], NoMoreOutcomes)
    else
      var st := StepOf(c, outs[0], file);
      assert st.file[..|file|] == file by { StepFile(c, outs[0], file); }
      match st
      case Halt(c', file', reason) => Session(c', file', [c.start], reason)
      case Next(c', file') =>
        var r' := Run(c', outs[1..], file');
        r'.(sent := [c.start] + r'.sent)
  }

  /** What one pass of the loop body does to the file: a success appends
      its page, with a header iff the file is empty; nothing else writes. */
  lemma StepFile<R>(c: Cursor, o: Outcome<R>, file: seq<Line<R>>)
    ensures var st := StepOf(c, o, file);
            && st.file == file + Frame(BatchOf(o), o.Ok? && |file| == 0)
            && st.file[..|file|] == file
            && DataRows(st.file) == DataRows(file) + BatchOf(o)
            && HeaderCount(st.file) == HeaderCount(file) + (if o.Ok? && |file| == 0 then 1 else 0)
            && (o.Ok? ==> |st.file| > 0)
            && (o.Ok? && |file| == 0 ==> st.file[0] == Header)
  {
    AppendFrame(file, BatchOf(o), o.Ok? && |file| == 0);
    if o.Ok? && |file| == 0 {
      assert file + Frame(o.results, true) == [Header] + Rows(o.results);
    }
    if !o.Ok? {
      assert Frame(BatchOf(o), false) == [];
      assert file + Frame(BatchOf(o), false) == file;
    }
  }

  /** What one pass of the loop body does to the cursor: a success adds
      the page's length to `current_count` and fixes `total_count` if it
      was unknown; a timeout or connection error adds one to `retries`;
      when the loop goes on after a success, `start` becomes
      `current_count`, and after a retry it stays. */
  lemma StepCursor<R>(c: Cursor, o: Outcome<R>, file: seq<Line<R>>)
    ensures var st := StepOf(c, o, file);
            && st.cursor.current == c.current + |BatchOf(o)|
            && st.cursor.total == TotalAfter(c.total, [o])
            && st.cursor.retries == c.retries + (if Transient(o) then 1 else 0)
            && (st.Next? ==> st.cursor.start == if o.Ok? then Some(st.cursor.current) else c.start)
  {
    assert FirstTotal([o]) == if o.Ok? then Some(o.totalResults) else FirstTotal([o][1..]);
  }

  /** Whether one pass of the loop body ends the loop: it goes on after a
      timeout, a connection error, or a success that leaves
      `current_count < total_count`; every other response stops it, and
      the reason names the response. */
  lemma StepExit<R>(c: Cursor, o: Outcome<R>, file: seq<Line<R>>)
    ensures var st := StepOf(c, o, file);
            && (st.Next? <==> Transient(o) || (o.Ok? && st.cursor.current < st.cursor.total.value))
            && (st.Halt? ==> match o
                  case Ok(_, _) => st.reason == Completed && st.cursor.current >= st.cursor.total.value
                  case S401 => st.reason == Unauthorized
                  case S429 => st.reason == RateLimited
                  case SOther(code) => st.reason == HttpError(code)
                  case Redirects => st.reason == TooManyRedirects
                  case OtherExc => st.reason == Failed
                  case _ => false)
  {
  }

  /** The file after the loop body has handled the responses `seen` in
      turn, starting from `file`: each success appends its page, with a
      header iff the file is empty at that moment. Earlier lines are never
      altered. */
  function FileAfter<R>(file: seq<Line<R>>, seen: seq<Outcome<R>>): (r: seq<Line<R>>)
    ensures |file| <= |r| && r[..|file|] == file
    decreases |seen|
  {
    if |seen| == 0 then file
    else
      var file' := file + Frame(BatchOf(seen[0]), seen[0].Ok? && |file| == 0);
      var r := FileAfter(file', seen[1..]);
      assert r[..|file|] == r[..|file'|][..|file|];
      r
  }

  /** The file a session leaves is the file after the responses it used. */
  lemma {:induction false} RunFile<R>(c: Cursor, outs: seq<Outcome<R>>, file: seq<Line<R>>)
    ensures var r := Run(c, outs, file);
            r.file == FileAfter(file, outs[..|r.sent|])
    decreases |outs|
  {
    var r := Run(c, outs, file);
    var k := |r.sent|;
    if c.retries >= MaxRetries || |outs| == 0 {
      assert outs[..0] == [];
    } else {
      var st := StepOf(c, outs[0], file);
      StepFile(c, outs[0], file);
      PrefixCons(outs, k);
      FileAfterCons(file, outs[0], outs[1..][..k - 1]);
      if st.Next? {
        RunFile(st.cursor, outs[1..], st.file);
      } else {
        assert outs[1..][..0] == [];
      }
    }
  }

  /** The first response handled is appended first. */
  lemma FileAfterCons<R>(file: seq<Line<R>>, o: Outcome<R>, tail: seq<Outcome<R>>)
    ensures FileAfter(file, [o] + tail) == FileAfter(file + Frame(BatchOf(o), o.Ok? && |file| == 0), tail)
  {
    var seen := [o] + tail;
    assert seen[0] == o && seen[1..] == tail;
  }

  /** The file's records after some responses: those it had, then the
      pages of the successes, in order. */
  lemma {:induction false} FileAfterRows<R>(file: seq<Line<R>>, seen: seq<Outcome<R>>)
    ensures DataRows(FileAfter(file, seen)) == DataRows(file) + OkRows(seen)
    decreases |seen|
  {
    if |seen| > 0 {
      var b := BatchOf(seen[0]);
      var h := seen[0].Ok? && |file| == 0;
      var file' := file + Frame(b, h);
      assert FileAfter(file, seen) == FileAfter(file', seen[1..]);
      assert OkRows(seen) == b + OkRows(seen[1..]);
      AppendFrame(file, b, h);
      FileAfterRows(file', seen[1..]);
      Assoc(DataRows(file), b, OkRows(seen[1..]));
    }
  }

  /** The file's headers after some responses: one more exactly when the
      file was empty and a success came. */
  lemma {:induction false} FileAfterHeaders<R>(file: seq<Line<R>>, seen: seq<Outcome<R>>)
    ensures HeaderCount(FileAfter(file, seen)) == HeaderCount(file) + (if |file| == 0 && HasOk(seen) then 1 else 0)
    decreases |seen|
  {
    if |seen| == 0 {
      assert !HasOk(seen);
    } else {
      var h := seen[0].Ok? && |file| == 0;
      var file' := file + Frame(BatchOf(seen[0]), h);
      AppendFrame(file, BatchOf(seen[0]), h);
      FileAfterHeaders(file', seen[1..]);
      assert seen == [seen[0]] + seen[1..];
      HasOkCons(seen[0], seen[1..]);
    }
  }

  /** On a file that was empty, the first line is the header once a
      success has come. */
  lemma {:induction false} FileAfterHeaderFirst<R>(file: seq<Line<R>>, seen: seq<Outcome<R>>)
    requires |file| == 0 && HasOk(seen)
    ensures |FileAfter(file, seen)| > 0 && FileAfter(file, seen)[0] == Header
    decreases |seen|
  {
    assert seen == [seen[0]] + seen[1..];
    HasOkCons(seen[0], seen[1..]);
    var file' := file + Frame(BatchOf(seen[0]), seen[0].Ok?);
    if seen[0].Ok? {
      var r := FileAfter(file', seen[1..]);
      assert file'[0] == Header;
      assert r[0] == r[..|file'|][0];
    } else {
      assert file' == file;
      FileAfterHeaderFirst(file', seen[1..]);
    }
  }

  /** Every success appends its rows after the rows already in the file. */
  lemma RunAppendsRows<R>(c: Cursor, outs: seq<Outcome<R>>, file: seq<Line<R>>)
    ensures var r := Run(c, outs, file);
            DataRows(r.file) == DataRows(file) + OkRows(outs[..|r.sent|])
  {
    RunFile(c, outs, file);
    FileAfterRows(file, outs[..|Run(c, outs, file).sent|]);
  }

  /** `current_count` grows by exactly the number of rows received. */
  lemma {:induction false} RunCountsRows<R>(c: Cursor, outs: seq<Outcome<R>>, file: seq<Line<R>>)
    ensures var r := Run(c, outs, file);
            r.cursor.current == c.current + |OkRows(outs[..|r.sent|])|
    decreases |outs|
  {
    var r := Run(c, outs, file);
    if c.retries >= MaxRetries || |outs| == 0 {
      assert outs[..0] == [];
    } else {
      var st := StepOf(c, outs[0], file);
      StepCursor(c, outs[0], file);
      PrefixCons(outs, |r.sent|);
      if st.Next? {
        RunCountsRows(st.cursor, outs[1..], st.file);
      } else {
        assert outs[1..][..0] == [];
      }
    }
  }

  /** A header is written only into an empty file: a file that was empty
      gets one header as soon as a page arrives and never a second one, a
      file that held lines gets none. */
  lemma RunHeaderOnce<R>(c: Cursor, outs: seq<Outcome<R>>, file: seq<Line<R>>)
    ensures var r := Run(c, outs, file);
            HeaderCount(r.file) == HeaderCount(file) + (if |file| == 0 && HasOk(outs[..|r.sent|]) then 1 else 0)
  {
    RunFile(c, outs, file);
    FileAfterHeaders(file, outs[..|Run(c, outs, file).sent|]);
  }

  /** On a file that was empty, the first line is the header as soon as a
      page has arrived. */
  lemma RunHeaderFirst<R>(c: Cursor, outs: seq<Outcome<R>>, file: seq<Line<R>>)
    requires |file| == 0
    requires HasOk(outs[..|Run(c, outs, file).sent|])
    ensures |Run(c, outs, file).file| > 0 && Run(c, outs, file).file[0] == Header
  {
    RunFile(c, outs, file);
    FileAfterHeaderFirst(file, outs[..|Run(c, outs, file).sent|]);
  }

  /** `total_count` is taken from the first successful response and never
      changes afterwards. */
  lemma {:induction false} RunTotalFromFirstSuccess<R>(c: Cursor, outs: seq<Outcome<R>>, file: seq<Line<R>>)
    ensures var r := Run(c, outs, file);
            r.cursor.total == TotalAfter(c.total, outs[..|r.sent|])
    decreases |outs|
  {
    var r := Run(c, outs, file);
    if c.retries >= MaxRetries || |outs| == 0 {
      assert outs[..0] == [];
    } else {
      var st := StepOf(c, outs[0], file);
      StepCursor(c, outs[0], file);
      PrefixCons(outs, |r.sent|);
      assert FirstTotal([outs[0]]) == if outs[0].Ok? then Some(outs[0].totalResults) else FirstTotal([outs[0]][1..]);
      if st.Next? {
        RunTotalFromFirstSuccess(st.cursor, outs[1..], st.file);
      } else {
        assert outs[1..][..0] == [];
      }
    }
  }

  /** A prefix that starts with a given response, counted for retries. */
  lemma TransientsCons<R>(outs: seq<Outcome<R>>, k: nat)
    requires 0 < k <= |outs|
    ensures Transients(outs[..k]) == (if Transient(outs[0]) then 1 else 0) + Transients(outs[1..][..k - 1])
  {
    assert outs[..k][0] == outs[0] && outs[..k][1..] == outs[1..][..k - 1];
  }

  /** `retries` counts every timeout and connection error of the session
      and is never reset; the loop gives up exactly when it reaches
      `MAX_RETRIES`, so no session sees more than three of them. */
  lemma {:induction false} RunRetryBound<R>(c: Cursor, outs: seq<Outcome<R>>, file: seq<Line<R>>)
    ensures var r := Run(c, outs, file);
            && r.cursor.retries == c.retries + Transients(outs[..|r.sent|])
            && (c.retries <= MaxRetries ==> r.cursor.retries <= MaxRetries)
            && (r.reason == RetriesExhausted <==> r.cursor.retries >= MaxRetries)
    decreases |outs|
  {
    var r := Run(c, outs, file);
    if c.retries >= MaxRetries || |outs| == 0 {
      assert outs[..0] == [];
    } else {
      var st := StepOf(c, outs[0], file);
      StepCursor(c, outs[0], file);
      StepExit(c, outs[0], file);
      TransientsCons(outs, |r.sent|);
      if st.Next? {
        RunRetryBound(st.cursor, outs[1..], st.file);
      } else {
        assert outs[1..][..0] == [];
      }
    }
  }

  /** How the loop stops: only successes and transient failures let it go
      on, so 401, 429, any other status, too many redirects and any other
      exception end it on the spot, and the stop reason names the last
      response received. `Completed` happens exactly on a success that
      brings `current_count` to `total_count`. */
  lemma {:induction false} RunStopReason<R>(c: Cursor, outs: seq<Outcome<R>>, file: seq<Line<R>>)
    ensures var r := Run(c, outs, file); var k := |r.sent|;
            && (forall j | 0 <= j < k - 1 :: outs[j].Ok? || Transient(outs[j]))
            && (r.reason == NoMoreOutcomes ==>
                  && k == |outs|
                  && (k == 0 || Transient(outs[k - 1]) ||
                      (outs[k - 1].Ok? && r.cursor.total.Some? && r.cursor.current < r.cursor.total.value)))
            && (r.reason == RetriesExhausted ==> k == 0 || Transient(outs[k - 1]))
            && (r.reason == Completed ==>
                  k > 0 && outs[k - 1].Ok? && r.cursor.total.Some? && r.cursor.current >= r.cursor.total.value)
            && (r.reason == Unauthorized ==> k > 0 && outs[k - 1].S401?)
            && (r.reason == RateLimited ==> k > 0 && outs[k - 1].S429?)
            && (r.reason.HttpError? ==> k > 0 && outs[k - 1] == SOther(r.reason.code))
            && (r.reason == TooManyRedirects ==> k > 0 && outs[k - 1].Redirects?)
            && (r.reason == Failed ==> k > 0 && outs[k - 1].OtherExc?)
            && (k > 0 && outs[k - 1].Ok? ==> r.reason in {Completed, NoMoreOutcomes})
    decreases |outs|
  {
    var r := Run(c, outs, file);
    if c.retries < MaxRetries && |outs| > 0 {
      var st := StepOf(c, outs[0], file);
      StepCursor(c, outs[0], file);
      StepExit(c, outs[0], file);
      if st.Next? {
        var rest := outs[1..];
        var r' := Run(st.cursor, rest, st.file);
        RunStopReason(st.cursor, rest, st.file);
        var k := |r.sent|;
        forall j | 0 <= j < k - 1 ensures outs[j].Ok? || Transient(outs[j]) {
          if j > 0 { assert outs[j] == rest[j - 1]; }
        }
        if k > 1 { assert outs[k - 1] == rest[k - 2]; }
      }
    }
  }

  /** The query each request carries: `start` stays as it was across a
      retry, and after every success it is the `current_count` reached so
      far (it is absent before the first success). */
  lemma {:induction false} RunRequestStarts<R>(c: Cursor, outs: seq<Outcome<R>>, file: seq<Line<R>>)
    ensures var r := Run(c, outs, file);
            forall j | 0 <= j < |r.sent| :: r.sent[j] == StartAfter(c, outs[..j])
    decreases |outs|
  {
    var r := Run(c, outs, file);
    if c.retries < MaxRetries && |outs| > 0 {
      var st := StepOf(c, outs[0], file);
      StepCursor(c, outs[0], file);
      var rest := outs[1..];
      assert outs == [outs[0]] + rest;
      if st.Next? {
        RunRequestStarts(st.cursor, rest, st.file);
        StartsShift(c, st.cursor, outs[0], rest, Run(st.cursor, rest, st.file).sent);
      } else {
        assert outs[..0] == [] && !HasOk(outs[..0]);
      }
    }
  }

  /** One response in front: the request it answered was sent at the
      cursor's own `start`, and every later one at the start the rest of
      the responses leave. */
  lemma StartsShift<R>(c: Cursor, c': Cursor, o: Outcome<R>, rest: seq<Outcome<R>>, sent': seq<Option<int>>)
    requires c'.current == c.current + |BatchOf(o)|
    requires c'.start == if o.Ok? then Some(c'.current) else c.start
    requires |sent'| <= |rest|
    requires forall j | 0 <= j < |sent'| :: sent'[j] == StartAfter(c', rest[..j])
    ensures var sent := [c.start] + sent';
            forall j | 0 <= j < |sent| :: sent[j] == StartAfter(c, ([o] + rest)[..j])
  {
    var sent := [c.start] + sent';
    var outs := [o] + rest;
    assert outs[..0] == [];
    assert !HasOk(outs[..0]);
    forall j | 0 < j < |sent| ensures sent[j] == StartAfter(c, outs[..j]) {
      assert sent[j] == sent'[j - 1];
      assert outs[..j] == [o] + rest[..j - 1];
      StartAfterCons(c, c', o, rest[..j - 1]);
    }
  }

  /** While the loop goes on, every success left `current_count` below
      `total_count`: together with `RunStopReason` this says the loop stops
      after a success exactly when `current_count >= total_count`. */
  lemma {:induction false} RunContinuesBelowTotal<R>(c: Cursor, outs: seq<Outcome<R>>, file: seq<Line<R>>)
    ensures var r := Run(c, outs, file);
            forall j | 0 <= j < |r.sent| - 1 && outs[j].Ok? ::
              var t := TotalAfter(c.total, outs[..j + 1]);
              t.Some? && c.current + |OkRows(outs[..j + 1])| < t.value
    decreases |outs|
  {
    var r := Run(c, outs, file);
    if c.retries < MaxRetries && |outs| > 0 {
      var o := outs[0];
      var st := StepOf(c, o, file);
      StepCursor(c, o, file);
      StepExit(c, o, file);
      if st.Next? {
        var rest := outs[1..];
        var r' := Run(st.cursor, rest, st.file);
        RunContinuesBelowTotal(st.cursor, rest, st.file);
        assert FirstTotal([o]) == if o.Ok? then Some(o.totalResults) else FirstTotal([o][1..]);
        forall j | 0 <= j < |r.sent| - 1 && outs[j].Ok?
          ensures var t := TotalAfter(c.total, outs[..j + 1]);
                  t.Some? && c.current + |OkRows(outs[..j + 1])| < t.value
        {
          PrefixCons(outs, j + 1);
          if j == 0 {
            assert outs[1..][..0] == [];
          } else {
            assert outs[j] == rest[j - 1];
          }
        }
      }
    }
  }

  /** Consequences for two consecutive requests: a retry repeats the
      previous `start`; the request after a success asks for
      `start == current_count`. */
  lemma RunRequestParams<R>(c: Cursor, outs: seq<Outcome<R>>, file: seq<Line<R>>, j: nat)
    requires j + 1 < |Run(c, outs, file).sent|
    ensures var r := Run(c, outs, file);
            && (Transient(outs[j]) ==> r.sent[j + 1] == r.sent[j])
            && (outs[j].Ok? ==> r.sent[j + 1] == Some(c.current + |OkRows(outs[..j + 1])|))
  {
    var r := Run(c, outs, file);
    RunRequestStarts(c, outs, file);
    assert r.sent[j] == StartAfter(c, outs[..j]);
    assert r.sent[j + 1] == StartAfter(c, outs[..j + 1]);
    StartAfterSnoc(c, outs, j);
  }

  /** A session on a new, empty file: at most one header, at the top; the
      file's records are the pages received, in order; `current_count` is
      their number; at most `MAX_RETRIES` transient failures were seen. */
  lemma FreshSession<R>(outs: seq<Outcome<R>>)
    ensures var r := Run(Fresh, outs, []); var seen := outs[..|r.sent|];
            && DataRows(r.file) == OkRows(seen)
            && r.cursor.current == |DataRows(r.file)|
            && HeaderCount(r.file) == (if HasOk(seen) then 1 else 0)
            && (HasOk(seen) ==> r.file[0] == Header)
            && Transients(seen) <= MaxRetries
            && r.cursor.total == FirstTotal(seen)
  {
    var r := Run(Fresh, outs, []);
    var seen := outs[..|r.sent|];
    var none: seq<Line<R>> := [];
    RunAppendsRows(Fresh, outs, none);
    RunCountsRows(Fresh, outs, none);
    assert DataRows(none) == [];
    assert DataRows(r.file) == [] + OkRows(seen);
    assert [] + OkRows(seen) == OkRows(seen);
    RunHeaderOnce(Fresh, outs, none);
    assert HeaderCount(none) == 0;
    RunRetryBound(Fresh, outs, none);
    RunTotalFromFirstSuccess(Fresh, outs, none);
    assert TotalAfter(None, seen) == FirstTotal(seen);
    if HasOk(seen) {
      RunHeaderFirst(Fresh, outs, none);
    }
  }

  /** Taking one response that lets the loop go on. */
  lemma RunNext<R>(c: Cursor, o: Outcome<R>, rest: seq<Outcome<R>>, file: seq<Line<R>>, c': Cursor, file': seq<Line<R>>)
    requires c.retries < MaxRetries
    requires StepOf(c, o, file) == Next(c', file')
    ensures Run(c, [o] + rest, file) == Run(c', rest, file').(sent := [c.start] + Run(c', rest, file').sent)
  {
    assert ([o] + rest)[0] == o && ([o] + rest)[1..] == rest;
  }

  /** Three pages of 100, 100 and 50 records out of 250: three requests,
      at start absent, 100 and 200; one header, then the 250 records in
      order; the loop ends complete. */
  lemma ThreePages<R>(p: seq<R>, q: seq<R>, s: seq<R>)
    requires |p| == 100 && |q| == 100 && |s| == 50
    ensures var r := Run(Fresh, [Ok(p, 250), Ok(q, 250), Ok(s, 250)], []);
            && r.reason == Completed && r.cursor.current == 250 && r.cursor.total == Some(250)
            && r.sent == [None, Some(100), Some(200)]
            && DataRows(r.file) == p + q + s && HeaderCount(r.file) == 1 && r.file[0] == Header
  {
    var f1: seq<Line<R>> := [] + Frame(p, true);
    var c1 := Cursor(100, Some(250), 0, Some(100));
    var f2 := f1 + Frame(q, false);
    var c2 := Cursor(200, Some(250), 0, Some(200));
    var f3 := f2 + Frame(s, false);
    AppendFrame([], p, true);
    AppendFrame(f1, q, false);
    AppendFrame(f2, s, false);
    assert StepOf(Fresh, Ok(p, 250), []) == Next(c1, f1);
    assert StepOf(c1, Ok(q, 250), f1) == Next(c2, f2);
    assert StepOf(c2, Ok(s, 250), f2) == Halt(Cursor(250, Some(250), 0, Some(200)), f3, Completed);
    var last := Run(c2, [Ok(s, 250)], f2);
    assert last == Session(Cursor(250, Some(250), 0, Some(200)), f3, [Some(200)], Completed);
    RunNext(c1, Ok(q, 250), [Ok(s, 250)], f1, c2, f2);
    assert [Ok(q, 250), Ok(s, 250)] == [Ok(q, 250)] + [Ok(s, 250)];
    RunNext(Fresh, Ok(p, 250), [Ok(q, 250), Ok(s, 250)], [], c1, f1);
    assert [Ok(p, 250), Ok(q, 250), Ok(s, 250)] == [Ok(p, 250)] + [Ok(q, 250), Ok(s, 250)];
    assert f3[..|f1|] == f1 by {
      assert f3 == f1 + (Frame(q, false) + Frame(s, false));
    }
    assert f1[0] == Header;
  }

  /** The last two steps of `RetriesNeverReset`: with two retries used,
      a page and then a timeout end the session. */
  lemma RetriesNeverResetTail<R>(f1: seq<Line<R>>, q: seq<R>, rest: seq<Outcome<R>>)
    requires |f1| > 0 && |q| == 100
    ensures Run(Cursor(100, Some(1000), 2, Some(100)), [Ok(q, 1000)] + ([Timeout] + rest), f1)
            == Session(Cursor(200, Some(1000), 3, Some(200)), f1 + Frame(q, false), [Some(100), Some(200)], RetriesExhausted)
  {
    var f2 := f1 + Frame(q, false);
    var c2 := Cursor(100, Some(1000), 2, Some(100));
    var c3 := Cursor(200, Some(1000), 2, Some(200));
    var c4 := Cursor(200, Some(1000), 3, Some(200));
    assert Run(c4, rest, f2) == Session(c4, f2, [], RetriesExhausted);
    RunNext(c3, Timeout, rest, f2, c4, f2);
    assert StepOf(c2, Ok(q, 1000), f1) == Next(c3, f2);
    RunNext(c2, Ok(q, 1000), [Timeout] + rest, f1, c3, f2);
  }

  /** The connection error of `RetriesNeverReset`, then its tail. */
  lemma RetriesNeverResetConnErr<R>(f1: seq<Line<R>>, q: seq<R>, rest: seq<Outcome<R>>)
    requires |f1| > 0 && |q| == 100
    ensures Run(Cursor(100, Some(1000), 1, Some(100)), [ConnErr] + ([Ok(q, 1000)] + ([Timeout] + rest)), f1)
            == Session(Cursor(200, Some(1000), 3, Some(200)), f1 + Frame(q, false), [Some(100), Some(100), Some(200)], RetriesExhausted)
  {
    RetriesNeverResetTail(f1, q, rest);
    RunNext(Cursor(100, Some(1000), 1, Some(100)), ConnErr, [Ok(q, 1000)] + ([Timeout] + rest), f1,
            Cursor(100, Some(1000), 2, Some(100)), f1);
  }

  /** The first page of `RetriesNeverReset`, then the rest. */
  lemma RetriesNeverResetPage<R>(p: seq<R>, q: seq<R>, rest: seq<Outcome<R>>)
    requires |p| == 100 && |q| == 100
    ensures var f1: seq<Line<R>> := [] + Frame(p, true);
            Run(Cursor(0, None, 1, None), [Ok(p, 1000)] + ([ConnErr] + ([Ok(q, 1000)] + ([Timeout] + rest))), [])
            == Session(Cursor(200, Some(1000), 3, Some(200)), f1 + Frame(q, false), [None, Some(100), Some(100), Some(200)], RetriesExhausted)
  {
    var f1: seq<Line<R>> := [] + Frame(p, true);
    var c1 := Cursor(100, Some(1000), 1, Some(100));
    assert |f1| > 0;
    RetriesNeverResetConnErr(f1, q, rest);
    assert StepOf(Cursor(0, None, 1, None), Ok(p, 1000), []) == Next(c1, f1);
    RunNext(Cursor(0, None, 1, None), Ok(p, 1000), [ConnErr] + ([Ok(q, 1000)] + ([Timeout] + rest)), [], c1, f1);
  }

  /** `retries` is never reset: a timeout, a page, a connection error, a
      page and a timeout end the session after five requests with
      `RetriesExhausted`, although the pages in between succeeded and
      `total_count` was far from reached. */
  lemma RetriesNeverReset<R>(p: seq<R>, q: seq<R>, rest: seq<Outcome<R>>)
    requires |p| == 100 && |q| == 100
    ensures var r := Run(Fresh, [Timeout, Ok(p, 1000), ConnErr, Ok(q, 1000), Timeout] + rest, []);
            && r.reason == RetriesExhausted && r.cursor.retries == MaxRetries
            && r.sent == [None, None, Some(100), Some(100), Some(200)]
            && r.cursor.current == 200 && DataRows(r.file) == p + q
  {
    var f1: seq<Line<R>> := [] + Frame(p, true);
    var f2 := f1 + Frame(q, false);
    var s1 := [Ok(p, 1000)] + ([ConnErr] + ([Ok(q, 1000)] + ([Timeout] + rest)));
    assert Run(Fresh, [Timeout] + s1, [])
        == Session(Cursor(200, Some(1000), 3, Some(200)), f2, [None, None, Some(100), Some(100), Some(200)], RetriesExhausted) by {
      RetriesNeverResetPage(p, q, rest);
      RunNext(Fresh, Timeout, s1, [], Cursor(0, None, 1, None), []);
    }
    assert [Timeout, Ok(p, 1000), ConnErr, Ok(q, 1000), Timeout] + rest == [Timeout] + s1;
    assert DataRows(f2) == p + q by {
      AppendFrame([], p, true);
      AppendFrame(f1, q, false);
      assert DataRows<R>([]) == [];
    }
  }

  /** The loop, resumed from cursor `c` with `rest` still to come, the file
      holding `file` and the requests `sent` already made, ends as `whole`. */
  ghost predicate Resumes<R>(whole: Session<R>, c: Cursor, rest: seq<Outcome<R>>, file: seq<Line<R>>, sent: seq<Option<int>>)
  {
    var r := Run(c, rest, file);
    whole == r.(sent := sent + r.sent)
  }

  /** One request more: the loop either ends there or resumes from the
      cursor and file that pass of the body leaves. */
  lemma ResumeStep<R>(whole: Session<R>, c: Cursor, outs: seq<Outcome<R>>, i: nat, file: seq<Line<R>>, sent: seq<Option<int>>)
    requires i < |outs| && Resumes(whole, c, outs[i..], file, sent)
    requires c.retries < MaxRetries
    ensures var st := StepOf(c, outs[i], file);
            if st.Halt? then whole == Session(st.cursor, st.file, sent + [c.start], st.reason)
            else Resumes(whole, st.cursor, outs[i + 1..], st.file, sent + [c.start])
  {
    var rest := outs[i..];
    assert rest[0] == outs[i] && rest[1..] == outs[i + 1..];
    var st := StepOf(c, rest[0], file);
    if st.Next? {
      var r' := Run(st.cursor, rest[1..], st.file);
      assert sent + ([c.start] + r'.sent) == (sent + [c.start]) + r'.sent;
    }
  }

  /** The loop ends without a request: `retries` has reached
      `MAX_RETRIES`, or no response is left. */
  lemma ResumeEnd<R>(whole: Session<R>, c: Cursor, outs: seq<Outcome<R>>, i: nat, file: seq<Line<R>>, sent: seq<Option<int>>)
    requires i <= |outs| && Resumes(whole, c, outs[i..], file, sent)
    requires c.retries >= MaxRetries || i == |outs|
    ensures whole == Session(c, file, sent, if c.retries >= MaxRetries then RetriesExhausted else NoMoreOutcomes)
  {
    assert sent + [] == sent;
  }

  /** The loop of `send_request`: `outs` are the endpoint's answers in the
      order they come, `f` the output file (opened for appending here).
      Returns the final cursor, the `start` parameter of each request sent
      and why the loop stopped. */
  method SendRequest<R>(outs: seq<Outcome<R>>, f: CsvFile<R>) returns (cursor: Cursor, sent: seq<Option<int>>, reason: Stop)
    requires f.Valid()
    modifies f
    ensures f.Valid() && f.isFile
    ensures Run(Fresh, outs, old(f.lines)) == Session(cursor, f.lines, sent, reason)
  {
    ghost var whole := Run(Fresh, outs, f.lines);
    f.OpenAppend();
    var current := 0;
    var total: Option<int> := None;
    var retries := 0;
    var start: Option<int> := None;
    sent := [];
    reason := RetriesExhausted;
    var i := 0;
    assert outs[0..] == outs;
    while retries < MaxRetries
      invariant 0 <= i <= |outs|
      invariant f.Valid() && f.isFile
      invariant Resumes(whole, Cursor(current, total, retries, start), outs[i..], f.lines, sent)
      decreases |outs| - i
    {
      if i == |outs| {
        reason := NoMoreOutcomes;
        ResumeEnd(whole, Cursor(current, total, retries, start), outs, i, f.lines, sent);
        break;
      }
      ghost var st := StepOf(Cursor(current, total, retries, start), outs[i], f.lines);
      ResumeStep(whole, Cursor(current, total, retries, start), outs, i, f.lines, sent);
      sent := sent + [start];
      var o := outs[i];
      i := i + 1;
      match o {
        case Ok(results, reported) =>
          current := current + |results|;
          if total.None? {
            total := Some(reported);
          }
          f.AppendCsv(results, |f.lines| == 0);
          if current >= total.value {
            reason := Completed;
            assert st == Halt(Cursor(current, total, retries, start), f.lines, reason);
            break;
          }
          start := Some(current);
        case S401 =>
          reason := Unauthorized;
          assert st == Halt(Cursor(current, total, retries, start), f.lines, reason);
          break;
        case S429 =>
          reason := RateLimited;
          assert st == Halt(Cursor(current, total, retries, start), f.lines, reason);
          break;
        case SOther(code) =>
          reason := HttpError(code);
          assert st == Halt(Cursor(current, total, retries, start), f.lines, reason);
          break;
        case Timeout =>
          retries := retries + 1;
        case Redirects =>
          reason := TooManyRedirects;
          assert st == Halt(Cursor(current, total, retries, start), f.lines, reason);
          break;
        case ConnErr =>
          retries := retries + 1;
        case OtherExc =>
          reason := Failed;
          assert st == Halt(Cursor(current, total, retries, start), f.lines, reason);
          break;
      }
      assert st == Next(Cursor(current, total, retries, start), f.lines);
    }
    if retries >= MaxRetries {
      ResumeEnd(whole, Cursor(current, total, retries, start), outs, i, f.lines, sent);
    }
    cursor := Cursor(current, total, retries, start);
  }
}
