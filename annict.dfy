/** The season fetcher: season names, the upstream season identifier, and the
    paginated retrieval that flattens works and their programs into rows and
    sorts them by start time. Each HTTP round trip is replaced by the next element
    of a given sequence of replies; timestamp parsing is the parameter `instant`. */
module Annict {
  import opened Common
  import opened Text
  import KeySort

  datatype SeasonSlug = Spring | Summer | Autumn | Winter

  /** The lowercase wire form of a season. */
  function SlugText(s: SeasonSlug): string {
    match s
    case Spring => "spring"
    case Summer => "summer"
    case Autumn => "autumn"
    case Winter => "winter"
  }

  /** toSeasonSlug: accepts exactly the four lowercase season names and throws
      "Invalid season: <season>" for anything else. */
  function ToSeasonSlug(season: string): (r: Result<SeasonSlug>)
    ensures r.Ok? <==> season == "spring" || season == "summer" || season == "autumn" || season == "winter"
    ensures r.Ok? ==> SlugText(r.value) == season
    ensures r.Err? ==> r.error == "Invalid season: " + season
  {
    if season == "spring" then Ok(Spring)
    else if season == "summer" then Ok(Summer)
    else if season == "autumn" then Ok(Autumn)
    else if season == "winter" then Ok(Winter)
    else Err("Invalid season: " + season)
  }

  lemma SlugRoundTrip(s: SeasonSlug)
    ensures ToSeasonSlug(SlugText(s)) == Ok(s)
  {
  }

  /** The upstream season identifier `${year}-${season}`, e.g. "2024-autumn". */
  function SeasonId(year: int, season: SeasonSlug): string {
    NumberText(year) + "-" + SlugText(season)
  }

  /** The year part of an identifier: the canonical text of an integer. */
  function ParseYearText(t: string): Option<int> {
    match ParseInt(t)
    case Some(y) => if NumberText(y) == t then Some(y) else None
    case None => None
  }

  /** Reads an identifier back: the last seven characters are "-" and a season
      name, and what precedes them is the canonical text of an integer. */
  function ParseSeasonId(id: string): Option<(int, SeasonSlug)> {
    if |id| < 8 || id[|id| - 7] != '-' then None
    else
      match (ParseYearText(id[..|id| - 7]), ToSeasonSlug(id[|id| - 6..]))
      case (Some(y), Ok(s)) => Some((y, s))
      case _ => None
  }

  lemma ParseYearOfNumberText(year: int)
    ensures ParseYearText(NumberText(year)) == Some(year)
  {
    ParseIntOfNumberText(year, []);
    assert NumberText(year) + [] == NumberText(year);
  }

  /** The season identifier determines the year and the season it was built from. */
  lemma SeasonIdRoundTrip(year: int, season: SeasonSlug)
    ensures ParseSeasonId(SeasonId(year, season)) == Some((year, season))
  {
    assert |SlugText(season)| == 6;
    JoinedParts(NumberText(year), SlugText(season));
    ParseYearOfNumberText(year);
    SlugRoundTrip(season);
  }

  /** `numeral + "-" + slug` with a six-letter slug splits back at its seventh
      character from the end. */
  lemma JoinedParts(numeral: string, slug: string)
    requires numeral != [] && |slug| == 6
    ensures var id := numeral + "-" + slug;
            |id| >= 8 && id[..|id| - 7] == numeral && id[|id| - 7] == '-' && id[|id| - 6..] == slug
  {
    var id := numeral + "-" + slug;
    assert id[..|id| - 7] == numeral;
    assert id[|id| - 6..] == slug;
  }

  /** One flattened line of the season listing. */
  datatype SeasonProgramRow = Row(title: string, channelName: string, startedAt: string)

  /** A broadcast of a work: its start (ISO 8601 text) and the channel's name. */
  datatype Program = Program(startedAt: string, channelName: string)

  /** A work with its programs, as one edge of `searchWorks` delivers it. */
  datatype Work = Work(title: string, programs: seq<Program>)

  /** The `searchWorks` field of a successful payload with its page info. */
  datatype SearchWorks = SearchWorks(works: seq<Work>, hasNextPage: bool, endCursor: Option<string>)

  /** A decoded JSON body: `data.searchWorks` (absent or null: `None`) and the
      messages of the `errors` array (absent: empty). */
  datatype Payload = Payload(searchWorks: Option<SearchWorks>, errors: seq<string>)

  /** The outcome of one round trip: an HTTP response, or an exception thrown by
      `fetch` or by decoding the body, with its message. */
  datatype Reply =
    | Response(status: int, statusText: string, body: Payload)
    | Failed(message: string)

  /** The variables and credentials of one request: `seasons`, `first`, `after`
      (left out of the variables when `None`) and the Authorization header. */
  datatype Request = Request(seasons: seq<string>, first: int, after: Option<string>, authorization: string)

  /** Response.ok: the status is in the range 200-299. */
  predicate IsOk(status: int) {
    200 <= status <= 299
  }

  /** The start of the message thrown for a non-2xx status. */
  const ApiErrorPrefix := "Annict API error: "

  /** The message thrown when `data.searchWorks` is missing and no error is given. */
  const UnknownApiError := "Unknown API error"

  /** The message thrown when `data.searchWorks` is missing. */
  function ErrorsMessage(errors: seq<string>): (m: string)
    ensures errors == [] ==> m == UnknownApiError
    ensures |errors| == 1 ==> m == errors[0]
  {
    if |errors| > 0 then Join(errors, ", ") else UnknownApiError
  }

  function RowsOfWork(w: Work): (rows: seq<SeasonProgramRow>)
    ensures |rows| == |w.programs|
  {
    seq(|w.programs|, j requires 0 <= j < |w.programs| =>
      Row(w.title, w.programs[j].channelName, w.programs[j].startedAt))
  }

  /** One row per program of every work, works in order, programs in order. */
  function Flatten(works: seq<Work>): seq<SeasonProgramRow>
    decreases |works|
  {
    if works == [] then [] else RowsOfWork(works[0]) + Flatten(works[1..])
  }

  /** The number of programs over all works. */
  function ProgramCount(works: seq<Work>): nat
    decreases |works|
  {
    if works == [] then 0 else |works[0].programs| + ProgramCount(works[1..])
  }

  lemma {:induction false} FlattenAppend(a: seq<Work>, b: seq<Work>)
    ensures Flatten(a + b) == Flatten(a) + Flatten(b)
    ensures ProgramCount(a + b) == ProgramCount(a) + ProgramCount(b)
    decreases |a|
  {
    if a == [] {
      assert a + b == b;
    } else {
      assert (a + b)[1..] == a[1..] + b;
      FlattenAppend(a[1..], b);
    }
  }

  /** No program is dropped and none is added: one row per (work, program) pair. */
  lemma {:induction false} FlattenCount(works: seq<Work>)
    ensures |Flatten(works)| == ProgramCount(works)
    decreases |works|
  {
    if works != [] {
      FlattenCount(works[1..]);
    }
  }

  /** Program `j` of work `i` becomes the row at offset ProgramCount(works[..i]) + j,
      with the work's title and the program's channel and start. */
  lemma {:induction false} FlattenAt(works: seq<Work>, i: int, j: int)
    requires 0 <= i < |works| && 0 <= j < |works[i].programs|
    ensures ProgramCount(works[..i]) + j < |Flatten(works)|
    ensures Flatten(works)[ProgramCount(works[..i]) + j]
         == Row(works[i].title, works[i].programs[j].channelName, works[i].programs[j].startedAt)
    decreases i
  {
    FlattenCount(works);
    FlattenCount(works[1..]);
    if i > 0 {
      FlattenAt(works[1..], i - 1, j);
      assert works[..i][1..] == works[1..][..i - 1];
      assert works[..i] != [];
    }
  }

  /** What one reply means for the loop. */
  datatype Step =
    | Abort(message: string)                             // the loop throws
    | Last(rows: seq<SeasonProgramRow>)                  // the page's rows, then stop
    | More(rows: seq<SeasonProgramRow>, cursor: string)  // the page's rows, then ask for `cursor`

  /** One iteration of the loop: a non-2xx status or a thrown round trip aborts;
      a payload without `searchWorks` aborts with the upstream error messages;
      otherwise the page's rows are kept, and the loop goes on exactly when
      `hasNextPage` holds and `endCursor` is a non-empty string. */
  function StepOf(reply: Reply): Step {
    match reply
    case Failed(m) => Abort(m)
    case Response(status, statusText, body) =>
      if !IsOk(status) then Abort(ApiErrorPrefix + NumberText(status) + " " + statusText)
      else if body.searchWorks.None? then Abort(ErrorsMessage(body.errors))
      else
        var sw := body.searchWorks.value;
        if sw.hasNextPage && sw.endCursor.Some? && sw.endCursor.value != "" then More(Flatten(sw.works), sw.endCursor.value)
        else Last(Flatten(sw.works))
  }

  /** The works a reply delivers (none when it aborts). */
  function WorksOf(reply: Reply): seq<Work> {
    if reply.Response? && IsOk(reply.status) && reply.body.searchWorks.Some? then reply.body.searchWorks.value.works else []
  }

  /** The rows a reply contributes: the works it delivers, flattened. */
  function PageRows(reply: Reply): seq<SeasonProgramRow> {
    Flatten(WorksOf(reply))
  }

  lemma StepKeepsPageRows(reply: Reply)
    ensures !StepOf(reply).Abort? ==> StepOf(reply).rows == PageRows(reply)
  {
  }

  /** The given replies end the loop somewhere: the upstream eventually stops
      paginating or fails. */
  predicate Terminates(replies: seq<Reply>) {
    exists i :: 0 <= i < |replies| && !StepOf(replies[i]).More?
  }

  /** The index of the reply that ends the loop. */
  function FirstStop(replies: seq<Reply>): (n: nat)
    requires Terminates(replies)
    ensures n < |replies| && !StepOf(replies[n]).More?
    ensures forall i :: 0 <= i < n ==> StepOf(replies[i]).More?
    decreases |replies|
  {
    if !StepOf(replies[0]).More? then 0
    else
      var k :| 0 <= k < |replies| && !StepOf(replies[k]).More?;
      assert !StepOf(replies[1..][k - 1]).More?;
      1 + FirstStop(replies[1..])
  }

  lemma StopsFrom(replies: seq<Reply>, n: nat)
    requires Terminates(replies) && n <= FirstStop(replies)
    ensures Terminates(replies[n..])
    ensures FirstStop(replies[n..]) == FirstStop(replies) - n
  {
    var f := FirstStop(replies);
    assert !StepOf(replies[n..][f - n]).More?;
    var g := FirstStop(replies[n..]);
    assert replies[n..][g] == replies[n + g];
  }

  datatype RunResult = Completed(rows: seq<SeasonProgramRow>) | Aborted(message: string)

  function Prepend(rows: seq<SeasonProgramRow>, r: RunResult): RunResult {
    if r.Completed? then Completed(rows + r.rows) else r
  }

  lemma PrependTwice(a: seq<SeasonProgramRow>, b: seq<SeasonProgramRow>, r: RunResult)
    ensures Prepend(a, Prepend(b, r)) == Prepend(a + b, r)
  {
    if r.Completed? {
      assert a + (b + r.rows) == (a + b) + r.rows;
    }
  }

  /** The accumulation loop as a function: page rows in page order, or the
      first abort. */
  function Run(replies: seq<Reply>): RunResult
    requires Terminates(replies)
    decreases |replies|
  {
    match StepOf(replies[0])
    case Abort(m) => Aborted(m)
    case Last(rows) => Completed(rows)
    case More(rows, _) =>
      StopsFrom(replies, 1);
      Prepend(rows, Run(replies[1..]))
  }

  /** All rows of the first `n` replies, in order. */
  function RowsOfPages(replies: seq<Reply>, n: nat): seq<SeasonProgramRow>
    requires n <= |replies|
    decreases n
  {
    if n == 0 then [] else RowsOfPages(replies, n - 1) + PageRows(replies[n - 1])
  }

  /** The number of programs in the first `n` replies. */
  function ProgramsOfPages(replies: seq<Reply>, n: nat): nat
    requires n <= |replies|
    decreases n
  {
    if n == 0 then 0 else ProgramsOfPages(replies, n - 1) + ProgramCount(WorksOf(replies[n - 1]))
  }

  lemma {:induction false} RowsOfPagesShift(replies: seq<Reply>, n: nat)
    requires 0 < n <= |replies|
    ensures RowsOfPages(replies, n) == PageRows(replies[0]) + RowsOfPages(replies[1..], n - 1)
    decreases n
  {
    if n > 1 {
      RowsOfPagesShift(replies, n - 1);
      assert replies[1..][n - 2] == replies[n - 1];
    }
  }

  /** The loop's outcome, stated without recursion: it is decided by the reply that
      ends the loop; a failure there discards everything gathered, otherwise the
      rows are those of all pages up to and including it. */
  lemma {:induction false} RunOutcome(replies: seq<Reply>)
    requires Terminates(replies)
    ensures var last := StepOf(replies[FirstStop(replies)]);
            last.Abort? ==> Run(replies) == Aborted(last.message)
    ensures var last := StepOf(replies[FirstStop(replies)]);
            !last.Abort? ==> Run(replies) == Completed(RowsOfPages(replies, FirstStop(replies) + 1))
    decreases |replies|
  {
    var f := FirstStop(replies);
    if f == 0 {
      RunStops(replies);
      assert RowsOfPages(replies, 1) == PageRows(replies[0]);
    } else {
      RunGoesOn(replies);
      var rest := replies[1..];
      RunOutcome(rest);
      assert rest[f - 1] == replies[f];
      if !StepOf(replies[f]).Abort? {
        RowsOfPagesShift(replies, f + 1);
      }
    }
  }

  /** A first reply that ends the loop decides the run on its own. */
  lemma RunStops(replies: seq<Reply>)
    requires Terminates(replies) && !StepOf(replies[0]).More?
    ensures StepOf(replies[0]).Abort? ==> Run(replies) == Aborted(StepOf(replies[0]).message)
    ensures !StepOf(replies[0]).Abort? ==> Run(replies) == Completed(PageRows(replies[0]))
  {
    StepKeepsPageRows(replies[0]);
  }

  /** A first reply that asks for more puts its rows in front of the rest's run. */
  lemma RunGoesOn(replies: seq<Reply>)
    requires Terminates(replies) && StepOf(replies[0]).More?
    ensures Terminates(replies[1..]) && FirstStop(replies[1..]) == FirstStop(replies) - 1
    ensures Run(replies) == Prepend(PageRows(replies[0]), Run(replies[1..]))
  {
    StepKeepsPageRows(replies[0]);
    StopsFrom(replies, 1);
  }

  /** Each page contributes one row per program it delivers. */
  lemma {:induction false} RowsOfPagesCount(replies: seq<Reply>, n: nat)
    requires n <= |replies|
    ensures |RowsOfPages(replies, n)| == ProgramsOfPages(replies, n)
    decreases n
  {
    if n > 0 {
      RowsOfPagesCount(replies, n - 1);
      FlattenCount(WorksOf(replies[n - 1]));
    }
  }

  /** The outcome of the loop from reply `n` on. */
  function Remaining(replies: seq<Reply>, n: nat): RunResult
    requires Terminates(replies) && n <= FirstStop(replies)
  {
    StopsFrom(replies, n);
    Run(replies[n..])
  }

  /** How the loop's outcome from reply `n` on unfolds by one reply. */
  lemma RunFrom(replies: seq<Reply>, n: nat)
    requires Terminates(replies) && n <= FirstStop(replies)
    ensures n == 0 ==> Remaining(replies, n) == Run(replies)
    ensures match StepOf(replies[n])
            case Abort(m) => Remaining(replies, n) == Aborted(m) && n == FirstStop(replies)
            case Last(rows) => Remaining(replies, n) == Completed(rows) && n == FirstStop(replies)
            case More(rows, _) => n + 1 <= FirstStop(replies)
                                  && Remaining(replies, n) == Prepend(rows, Remaining(replies, n + 1))
  {
    StopsFrom(replies, n);
    assert replies[n..][0] == replies[n];
    assert n == 0 ==> replies[n..] == replies;
    if StepOf(replies[n]).More? {
      StopsFrom(replies, n + 1);
      assert replies[n..][1..] == replies[n + 1..];
    }
  }

  /** The `after` variable of request `i`: none for the first request, then the
      cursor of the page before. */
  function CursorBefore(replies: seq<Reply>, i: nat): Option<string> {
    if 0 < i <= |replies| && StepOf(replies[i - 1]).More? then Some(StepOf(replies[i - 1]).cursor) else None
  }

  /** The first `n` requests the loop sends. */
  function Requests(year: int, season: SeasonSlug, accessToken: string, replies: seq<Reply>, n: nat): seq<Request> {
    seq(n, (i: nat) => Request([SeasonId(year, season)], 50, CursorBefore(replies, i), "Bearer " + accessToken))
  }

  lemma RequestsSnoc(year: int, season: SeasonSlug, accessToken: string, replies: seq<Reply>, n: nat)
    ensures Requests(year, season, accessToken, replies, n + 1)
         == Requests(year, season, accessToken, replies, n)
            + [Request([SeasonId(year, season)], 50, CursorBefore(replies, n), "Bearer " + accessToken)]
  {
    var longer := Requests(year, season, accessToken, replies, n + 1);
    var shorter := Requests(year, season, accessToken, replies, n);
    assert longer[..n] == shorter;
    assert longer == longer[..n] + [longer[n]];
  }

  /** The sort key: the start instant of a row. */
  function ByStart(instant: string -> int): SeasonProgramRow -> int {
    (r: SeasonProgramRow) => instant(r.startedAt)
  }


  /** What fetchSeasonPrograms returns or throws for the given replies. */
  function FetchResult(replies: seq<Reply>, instant: string -> int): Result<seq<SeasonProgramRow>>
    requires Terminates(replies)
  {
    match Run(replies)
    case Completed(rows) => Ok(KeySort.SortByKey(rows, ByStart(instant)))
    case Aborted(m) => Err(m)
  }

  /** A reply that aborts decides the fetch, whatever was gathered before it. */
  lemma AbortDecides(replies: seq<Reply>, instant: string -> int, rows: seq<SeasonProgramRow>, n: nat)
    requires Terminates(replies) && n <= FirstStop(replies)
    requires Run(replies) == Prepend(rows, Remaining(replies, n))
    requires StepOf(replies[n]).Abort?
    ensures n == FirstStop(replies)
    ensures FetchResult(replies, instant) == Err(StepOf(replies[n]).message)
  {
    RunFrom(replies, n);
  }

  /** A page that ends pagination without aborting completes the loop, its rows
      appended to those gathered before. */
  lemma LastCompletes(replies: seq<Reply>, rows: seq<SeasonProgramRow>, n: nat)
    requires Terminates(replies) && n <= FirstStop(replies)
    requires Run(replies) == Prepend(rows, Remaining(replies, n))
    requires StepOf(replies[n]).Last?
    ensures Run(replies) == Completed(rows + StepOf(replies[n]).rows)
  {
    RunFrom(replies, n);
  }

  /** A page that asks for more moves the loop on to the next reply, its rows
      appended to those gathered before. */
  lemma MoreContinues(replies: seq<Reply>, rows: seq<SeasonProgramRow>, n: nat)
    requires Terminates(replies) && n <= FirstStop(replies)
    requires Run(replies) == Prepend(rows, Remaining(replies, n))
    requires StepOf(replies[n]).More?
    ensures n + 1 <= FirstStop(replies)
    ensures Run(replies) == Prepend(rows + StepOf(replies[n]).rows, Remaining(replies, n + 1))
  {
    RunFrom(replies, n);
    PrependTwice(rows, StepOf(replies[n]).rows, Remaining(replies, n + 1));
  }

  /** A loop that completes with `rows` makes the fetch return them, stably sorted
      by start instant. */
  lemma CompletedDecides(replies: seq<Reply>, instant: string -> int, rows: seq<SeasonProgramRow>)
    requires Terminates(replies) && Run(replies) == Completed(rows)
    ensures FetchResult(replies, instant) == Ok(KeySort.SortByKey(rows, ByStart(instant)))
  {
  }

  /** Records the request the loop sends for reply `n`: the season identifier,
      50 works per page, the cursor of the page before, and the bearer token. */
  method SendRequest(requests: seq<Request>, year: int, season: SeasonSlug, accessToken: string,
                     replies: seq<Reply>, n: nat, seasonStr: string, first: int, after: Option<string>)
    returns (sent: seq<Request>)
    requires requests == Requests(year, season, accessToken, replies, n)
    requires seasonStr == SeasonId(year, season) && first == 50 && after == CursorBefore(replies, n)
    ensures sent == Requests(year, season, accessToken, replies, n + 1)
  {
    sent := requests + [Request([seasonStr], first, after, "Bearer " + accessToken)];
    RequestsSnoc(year, season, accessToken, replies, n);
  }

  /** The nested loops of one page: push a row for every program of every work,
      onto the end of the buffer. */
  method PushPageRows(rows: seq<SeasonProgramRow>, works: seq<Work>) returns (out: seq<SeasonProgramRow>)
    ensures out == rows + Flatten(works)
  {
    out := rows;
    for w := 0 to |works|
      invariant out == rows + Flatten(works[..w])
    {
      var work := works[w];
      for p := 0 to |work.programs|
        invariant out == rows + Flatten(works[..w]) + RowsOfWork(work)[..p]
      {
        var prog := work.programs[p];
        out := out + [Row(work.title, prog.channelName, prog.startedAt)];
      }
      assert RowsOfWork(work)[..|work.programs|] == RowsOfWork(work);
      FlattenAppend(works[..w], [work]);
      assert works[..w + 1] == works[..w] + [work];
    }
    assert works[..|works|] == works;
  }

  /** `rows.sort((a, b) => instant(a.startedAt) - instant(b.startedAt))`: the
      accumulated rows, held in an array, sorted stably in place by start instant. */
  method SortByStartTime(rows: seq<SeasonProgramRow>, instant: string -> int) returns (sorted: seq<SeasonProgramRow>)
    ensures sorted == KeySort.SortByKey(rows, ByStart(instant))
  {
    var buffer := new SeasonProgramRow[|rows|](i requires 0 <= i < |rows| => rows[i]);
    assert buffer[..] == rows;
    KeySort.SortInPlace(buffer, ByStart(instant));
    sorted := buffer[..];
  }

  /** The body of one loop iteration after the request is sent: a failed
      transport, a non-2xx status or a payload without `searchWorks` ends the fetch
      with its message; otherwise every program of every work is pushed onto
      `rows`, and the page's `hasNextPage`/`endCursor` say whether to go on. */
  method ReadPage(rows: seq<SeasonProgramRow>, reply: Reply) returns (outcome: Step)
    ensures outcome == match StepOf(reply)
                       case Abort(m) => Abort(m)
                       case Last(page) => Last(rows + page)
                       case More(page, cursor) => More(rows + page, cursor)
  {
    if reply.Failed? {
      return Abort(reply.message);
    }
    if !IsOk(reply.status) {
      return Abort(ApiErrorPrefix + NumberText(reply.status) + " " + reply.statusText);
    }
    if reply.body.searchWorks.None? {
      return Abort(ErrorsMessage(reply.body.errors));
    }
    var sw := reply.body.searchWorks.value;
    var pushed := PushPageRows(rows, sw.works);
    if !sw.hasNextPage || sw.endCursor.None? || sw.endCursor.value == "" {
      return Last(pushed);
    }
    return More(pushed, sw.endCursor.value);
  }

  /** fetchSeasonPrograms: one request per reply until a reply ends the loop; the
      first request has no `after`, every later one the previous page's cursor;
      the rows gathered are stably sorted in place by start instant. */
  method FetchSeasonPrograms(year: int, season: SeasonSlug, accessToken: string,
                             replies: seq<Reply>, instant: string -> int)
    returns (result: Result<seq<SeasonProgramRow>>, requests: seq<Request>)
    requires Terminates(replies)
    ensures result == FetchResult(replies, instant)
    ensures requests == Requests(year, season, accessToken, replies, FirstStop(replies) + 1)
  {
    var seasonStr := SeasonId(year, season);
    var rows: seq<SeasonProgramRow> := [];
    var after: Option<string> := None;
    var first := 50;
    requests := [];
    var n := 0;
    RunFrom(replies, 0);
    while true
      invariant n <= FirstStop(replies)
      invariant requests == Requests(year, season, accessToken, replies, n)
      invariant after == CursorBefore(replies, n)
      invariant Run(replies) == Prepend(rows, Remaining(replies, n))
      decreases FirstStop(replies) - n
    {
      requests := SendRequest(requests, year, season, accessToken, replies, n, seasonStr, first, after);
      var outcome := ReadPage(rows, replies[n]);
      if outcome.Abort? {
        AbortDecides(replies, instant, rows, n);
        result := Err(outcome.message);
        return;
      }
      if outcome.Last? {
        LastCompletes(replies, rows, n);
        rows := outcome.rows;
        break;
      }
      MoreContinues(replies, rows, n);
      rows := outcome.rows;
      after := Some(outcome.cursor);
      n := n + 1;
    }
    CompletedDecides(replies, instant, rows);
    var sorted := SortByStartTime(rows, instant);
    result := Ok(sorted);
  }

  // ---------------------------------------------------------------------------
  // What a fetch returns

  /** The fetch, stated without the loop: the reply that ends pagination decides.
      If it aborts, its message is thrown and every row gathered so far is
      discarded; otherwise the rows of all pages up to and including it are
      returned, stably sorted by start instant. */
  lemma FetchOutcome(replies: seq<Reply>, instant: string -> int)
    requires Terminates(replies)
    ensures var last := StepOf(replies[FirstStop(replies)]);
            FetchResult(replies, instant)
              == if last.Abort? then Err(last.message)
                 else Ok(KeySort.SortByKey(RowsOfPages(replies, FirstStop(replies) + 1), ByStart(instant)))
  {
    RunOutcome(replies);
  }

  /** A non-2xx status on a page that is requested ends the fetch with
      "Annict API error: <status> <statusText>" and no rows. */
  lemma HttpErrorAborts(replies: seq<Reply>, instant: string -> int, k: nat)
    requires Terminates(replies) && k <= FirstStop(replies)
    requires replies[k].Response? && !IsOk(replies[k].status)
    ensures k == FirstStop(replies)
    ensures FetchResult(replies, instant)
         == Err(ApiErrorPrefix + NumberText(replies[k].status) + " " + replies[k].statusText)
  {
    FetchOutcome(replies, instant);
  }

  /** A successful response without `data.searchWorks` ends the fetch with the
      upstream error messages joined by ", ", or "Unknown API error" when there
      are none. */
  lemma MissingSearchWorksAborts(replies: seq<Reply>, instant: string -> int, k: nat)
    requires Terminates(replies) && k <= FirstStop(replies)
    requires replies[k].Response? && IsOk(replies[k].status) && replies[k].body.searchWorks.None?
    ensures k == FirstStop(replies)
    ensures var errors := replies[k].body.errors;
            FetchResult(replies, instant)
              == Err(if errors == [] then UnknownApiError else Join(errors, ", "))
  {
    FetchOutcome(replies, instant);
  }

  /** Pagination goes on past a page exactly when the page has `hasNextPage` and a
      non-empty `endCursor`; the next request then carries that cursor. */
  lemma ContinuesExactly(replies: seq<Reply>, k: nat)
    requires Terminates(replies) && k <= FirstStop(replies)
    ensures k < FirstStop(replies) <==>
              && replies[k].Response? && IsOk(replies[k].status) && replies[k].body.searchWorks.Some?
              && replies[k].body.searchWorks.value.hasNextPage
              && replies[k].body.searchWorks.value.endCursor.Some?
              && replies[k].body.searchWorks.value.endCursor.value != ""
    ensures k < FirstStop(replies) ==> CursorBefore(replies, k + 1) == replies[k].body.searchWorks.value.endCursor
  {
  }

  /** Returned rows are the rows of every page fetched, stably sorted. */
  lemma FetchedRowsAre(replies: seq<Reply>, instant: string -> int)
    requires Terminates(replies) && FetchResult(replies, instant).Ok?
    ensures FetchResult(replies, instant).value
         == KeySort.SortByKey(RowsOfPages(replies, FirstStop(replies) + 1), ByStart(instant))
  {
    FetchOutcome(replies, instant);
  }

  /** Returned rows are `gathered`, the rows of every page fetched, stably sorted:
      sorted by start instant, with every instant's rows in gathering order, and
      each row as often as it was gathered. */
  lemma FetchedRowsOf(replies: seq<Reply>, instant: string -> int, gathered: seq<SeasonProgramRow>)
    requires Terminates(replies) && FetchResult(replies, instant).Ok?
    requires gathered == RowsOfPages(replies, FirstStop(replies) + 1)
    ensures KeySort.SortedByKey(FetchResult(replies, instant).value, ByStart(instant))
    ensures KeySort.SameKeyOrder(FetchResult(replies, instant).value, gathered, ByStart(instant))
    ensures multiset(FetchResult(replies, instant).value) == multiset(gathered)
    ensures |FetchResult(replies, instant).value| == |gathered|
  {
    FetchedRowsAre(replies, instant);
    KeySort.SortByKeyPermutation(gathered, ByStart(instant));
  }

  /** Sorting by the key `ByStart(instant)` is ordering by start instant. */
  lemma SortedByStart(rows: seq<SeasonProgramRow>, instant: string -> int)
    ensures KeySort.SortedByKey(rows, ByStart(instant))
            <==> forall i, j :: 0 <= i < j < |rows| ==> instant(rows[i].startedAt) <= instant(rows[j].startedAt)
  {
    if forall i, j :: 0 <= i < j < |rows| ==> instant(rows[i].startedAt) <= instant(rows[j].startedAt) {
      forall i, j | 0 <= i < j < |rows| ensures ByStart(instant)(rows[i]) <= ByStart(instant)(rows[j]) {
      }
    }
    if KeySort.SortedByKey(rows, ByStart(instant)) {
      forall i, j | 0 <= i < j < |rows| ensures instant(rows[i].startedAt) <= instant(rows[j].startedAt) {
        assert ByStart(instant)(rows[i]) <= ByStart(instant)(rows[j]);
      }
    }
  }

  /** The returned rows are in non-decreasing order of start instant. */
  lemma FetchedRowsSorted(replies: seq<Reply>, instant: string -> int)
    requires Terminates(replies) && FetchResult(replies, instant).Ok?
    ensures var rows := FetchResult(replies, instant).value;
            forall i, j :: 0 <= i < j < |rows| ==> instant(rows[i].startedAt) <= instant(rows[j].startedAt)
  {
    FetchedRowsOf(replies, instant, RowsOfPages(replies, FirstStop(replies) + 1));
    SortedByStart(FetchResult(replies, instant).value, instant);
  }

  /** The returned rows are the gathered rows rearranged: one row per program of
      every page fetched, none dropped, duplicates kept. */
  lemma FetchedRowsPermutation(replies: seq<Reply>, instant: string -> int)
    requires Terminates(replies) && FetchResult(replies, instant).Ok?
    ensures multiset(FetchResult(replies, instant).value) == multiset(RowsOfPages(replies, FirstStop(replies) + 1))
    ensures |FetchResult(replies, instant).value| == ProgramsOfPages(replies, FirstStop(replies) + 1)
  {
    FetchedRowsOf(replies, instant, RowsOfPages(replies, FirstStop(replies) + 1));
    RowsOfPagesCount(replies, FirstStop(replies) + 1);
  }

  /** Rows that start at the same instant keep the order in which they were gathered
      (page by page, work by work, program by program): the sort is stable. */
  lemma FetchedRowsStable(replies: seq<Reply>, instant: string -> int, t: int)
    requires Terminates(replies) && FetchResult(replies, instant).Ok?
    ensures KeySort.WithKey(FetchResult(replies, instant).value, ByStart(instant), t)
         == KeySort.WithKey(RowsOfPages(replies, FirstStop(replies) + 1), ByStart(instant), t)
  {
    FetchedRowsOf(replies, instant, RowsOfPages(replies, FirstStop(replies) + 1));
  }

  /** Sorted and stable leave no choice: any arrangement of the gathered rows that
      is sorted by start instant and keeps equal instants in gathering order is the
      fetch's result, so identical replies always yield identical rows. */
  lemma FetchedRowsDetermined(replies: seq<Reply>, instant: string -> int, other: seq<SeasonProgramRow>)
    requires Terminates(replies) && FetchResult(replies, instant).Ok?
    requires forall i, j :: 0 <= i < j < |other| ==> instant(other[i].startedAt) <= instant(other[j].startedAt)
    requires KeySort.SameKeyOrder(other, RowsOfPages(replies, FirstStop(replies) + 1), ByStart(instant))
    ensures other == FetchResult(replies, instant).value
  {
    FetchedRowsAre(replies, instant);
    SortedByStart(other, instant);
    KeySort.SortByKeyUnique(other, RowsOfPages(replies, FirstStop(replies) + 1), ByStart(instant));
  }

  /** One work "X" with a program on channel "A" at t1 and one on "B" at an earlier
      t2: two rows for "X", the "B" row first. */
  lemma FlattenAndSortExample(instant: string -> int, t1: string, t2: string)
    requires instant(t2) < instant(t1)
    ensures var page := SearchWorks([Work("X", [Program(t1, "A"), Program(t2, "B")])], false, None);
            var replies := [Response(200, "OK", Payload(Some(page), []))];
            && Terminates(replies)
            && FetchResult(replies, instant) == Ok([Row("X", "B", t2), Row("X", "A", t1)])
  {
    var page := SearchWorks([Work("X", [Program(t1, "A"), Program(t2, "B")])], false, None);
    var replies := [Response(200, "OK", Payload(Some(page), []))];
    var gathered := [Row("X", "A", t1), Row("X", "B", t2)];
    assert !StepOf(replies[0]).More?;
    assert Flatten(page.works) == RowsOfWork(page.works[0]) + Flatten([]);
    assert Run(replies) == Completed(gathered);
    var expected := [Row("X", "B", t2), Row("X", "A", t1)];
    var key := ByStart(instant);
    assert KeySort.SortedByKey(expected, key);
    forall t ensures KeySort.WithKey(expected, key, t) == KeySort.WithKey(gathered, key, t) {
      KeySort.WithKeyCons(expected[0], expected[1..], key, t);
      KeySort.WithKeyCons(expected[1], [], key, t);
      KeySort.WithKeyCons(gathered[0], gathered[1..], key, t);
      KeySort.WithKeyCons(gathered[1], [], key, t);
      assert expected[1..] == [expected[1]] + [] && gathered[1..] == [gathered[1]] + [];
    }
    KeySort.StableSortUnique(expected, KeySort.SortByKey(gathered, key), key);
  }
}
