/** The season query endpoint, GET /api/season?year=…&season=…: a chain of guard
    clauses, each returning a tagged response, then one call of the fetcher whose
    outcome becomes a 200 or a 502 response. The environment's access token and
    the query parameters are inputs; the fetcher is a parameter. */
module SeasonRoute {
  import opened Common
  import opened Text
  import Annict

  /** The JSON body: `{ok: true, rows}` or `{ok: false, error}`. */
  datatype ApiBody = Success(rows: seq<Annict.SeasonProgramRow>) | Failure(error: string)

  datatype ApiResponse = ApiResponse(status: int, body: ApiBody)

  /** How a call of the fetcher ends: it returns rows, throws an Error (with its
      message), or throws something that is not an Error. */
  datatype FetcherOutcome = Returned(rows: seq<Annict.SeasonProgramRow>) | ThrewError(message: string) | ThrewOther

  const TokenMissing := "ANNICT_ACCESS_TOKEN が設定されていません。"
  const ParamsMissing := "year と season を指定してください。"
  const InvalidYear := "有効な年（西暦）を指定してください。"
  const InvalidSeason := "season は spring / summer / autumn / winter のいずれかにしてください。"
  const FetchFailed := "取得に失敗しました。"

  /** JavaScript truthiness of an optional string: present and non-empty. */
  predicate Present(s: Option<string>) {
    s.Some? && s.value != ""
  }

  /** The year check: parseInt(year, 10) is a number in 1970..2100. */
  function ParseYear(param: string): (r: Option<int>)
    ensures r.Some? ==> 1970 <= r.value <= 2100 && ParseInt(param) == Some(r.value)
    ensures r.None? ==> ParseInt(param).None? || ParseInt(param).value < 1970 || ParseInt(param).value > 2100
  {
    match ParseInt(param)
    case Some(y) => if y < 1970 || y > 2100 then None else Some(y)
    case None => None
  }

  /** GET: the token, then both parameters, then the year, then the season; the
      first failing check answers, and only when all pass is the fetcher called. */
  function Get(token: Option<string>, year: Option<string>, season: Option<string>,
               fetcher: (int, Annict.SeasonSlug, string) -> FetcherOutcome): (r: ApiResponse)
    ensures r.status in {200, 400, 500, 502}
    ensures r.status == 200 <==> r.body.Success?
  {
    if !Present(token) then ApiResponse(500, Failure(TokenMissing))
    else if !Present(year) || !Present(season) then ApiResponse(400, Failure(ParamsMissing))
    else match ParseYear(year.value)
      case None => ApiResponse(400, Failure(InvalidYear))
      case Some(y) =>
        match Annict.ToSeasonSlug(season.value)
        case Err(_) => ApiResponse(400, Failure(InvalidSeason))
        case Ok(slug) =>
          match fetcher(y, slug, token.value)
          case Returned(rows) => ApiResponse(200, Success(rows))
          case ThrewError(m) => ApiResponse(502, Failure(m))
          case ThrewOther => ApiResponse(502, Failure(FetchFailed))
  }

  /** A missing or empty token answers 500 before any parameter is looked at. */
  lemma TokenCheckedFirst(token: Option<string>, year: Option<string>, season: Option<string>,
                          fetcher: (int, Annict.SeasonSlug, string) -> FetcherOutcome)
    requires !Present(token)
    ensures Get(token, year, season, fetcher) == ApiResponse(500, Failure(TokenMissing))
  {
  }

  /** With a token, a missing or empty `year` or `season` answers 400. */
  lemma ParamsCheckedSecond(token: Option<string>, year: Option<string>, season: Option<string>,
                            fetcher: (int, Annict.SeasonSlug, string) -> FetcherOutcome)
    requires Present(token) && (!Present(year) || !Present(season))
    ensures Get(token, year, season, fetcher) == ApiResponse(400, Failure(ParamsMissing))
  {
  }

  /** Then a year that parseInt reads as NaN or outside 1970..2100 answers 400,
      whatever the season. */
  lemma YearCheckedThird(token: Option<string>, year: Option<string>, season: Option<string>,
                         fetcher: (int, Annict.SeasonSlug, string) -> FetcherOutcome)
    requires Present(token) && Present(year) && Present(season)
    requires ParseInt(year.value).None? || ParseInt(year.value).value < 1970 || ParseInt(year.value).value > 2100
    ensures Get(token, year, season, fetcher) == ApiResponse(400, Failure(InvalidYear))
  {
  }

  /** Then a season other than the four lowercase names answers 400 with the
      message that lists them. */
  lemma SeasonCheckedFourth(token: Option<string>, year: Option<string>, season: Option<string>,
                            fetcher: (int, Annict.SeasonSlug, string) -> FetcherOutcome)
    requires Present(token) && Present(year) && Present(season) && ParseYear(year.value).Some?
    requires season.value !in {"spring", "summer", "autumn", "winter"}
    ensures Get(token, year, season, fetcher) == ApiResponse(400, Failure(InvalidSeason))
  {
  }

  /** When every check passes the fetcher is called with the parsed year, the season
      and the token, and its outcome is passed on: rows unchanged with 200, an
      Error's message with 502, or the generic message with 502. */
  lemma FetcherOutcomeMapped(token: Option<string>, year: Option<string>, season: Option<string>,
                             fetcher: (int, Annict.SeasonSlug, string) -> FetcherOutcome)
    requires Present(token) && Present(year) && Present(season)
    requires ParseYear(year.value).Some? && Annict.ToSeasonSlug(season.value).Ok?
    ensures var outcome := fetcher(ParseYear(year.value).value, Annict.ToSeasonSlug(season.value).value, token.value);
            Get(token, year, season, fetcher)
              == match outcome
                 case Returned(rows) => ApiResponse(200, Success(rows))
                 case ThrewError(m) => ApiResponse(502, Failure(m))
                 case ThrewOther => ApiResponse(502, Failure(FetchFailed))
  {
  }

  /** A request that fails a check gets the same answer whatever the fetcher does:
      the fetcher is not consulted. */
  lemma FetcherOnlyWhenValid(token: Option<string>, year: Option<string>, season: Option<string>,
                             f: (int, Annict.SeasonSlug, string) -> FetcherOutcome,
                             g: (int, Annict.SeasonSlug, string) -> FetcherOutcome)
    requires !(Present(token) && Present(year) && Present(season)
               && ParseYear(year.value).Some? && Annict.ToSeasonSlug(season.value).Ok?)
    ensures Get(token, year, season, f) == Get(token, year, season, g)
    ensures Get(token, year, season, f).status in {400, 500}
  {
  }

  lemma Year1970()
    ensures ParseYear("1970") == Some(1970)
  {
    assert NumberText(1970) == "1970" by {
      assert Digits(1970) == Digits(197) + ['0'];
      assert Digits(197) == Digits(19) + ['7'];
      assert Digits(19) == Digits(1) + ['9'];
    }
    ParseIntOfNumberText(1970, []);
    assert "1970" + [] == "1970";
  }

  lemma Year2100()
    ensures ParseYear("2100") == Some(2100)
  {
    assert NumberText(2100) == "2100" by {
      assert Digits(2100) == Digits(210) + ['0'];
      assert Digits(210) == Digits(21) + ['0'];
      assert Digits(21) == Digits(2) + ['1'];
    }
    ParseIntOfNumberText(2100, []);
    assert "2100" + [] == "2100";
  }

  lemma Year1969()
    ensures ParseYear("1969") == None
  {
    assert NumberText(1969) == "1969" by {
      assert Digits(1969) == Digits(196) + ['9'];
      assert Digits(196) == Digits(19) + ['6'];
      assert Digits(19) == Digits(1) + ['9'];
    }
    ParseIntOfNumberText(1969, []);
    assert "1969" + [] == "1969";
  }

  lemma Year2101()
    ensures ParseYear("2101") == None
  {
    assert NumberText(2101) == "2101" by {
      assert Digits(2101) == Digits(210) + ['1'];
      assert Digits(210) == Digits(21) + ['0'];
      assert Digits(21) == Digits(2) + ['1'];
    }
    ParseIntOfNumberText(2101, []);
    assert "2101" + [] == "2101";
  }

  lemma Year2024(s: string)
    requires |s| >= 4 && s[0] == '2' && s[1] == '0' && s[2] == '2' && s[3] == '4'
    requires |s| == 4 || !IsDigit(s[4])
    ensures ParseYear(s) == Some(2024)
  {
    assert NumberText(2024) == "2024" by {
      assert Digits(2024) == Digits(202) + ['4'];
      assert Digits(202) == Digits(20) + ['2'];
      assert Digits(20) == Digits(2) + ['0'];
    }
    assert s == NumberText(2024) + s[4..];
    ParseIntOfNumberText(2024, s[4..]);
  }

  lemma YearNotANumber()
    ensures ParseYear("abcd") == None
  {
    var t := "abcd";
    assert !IsSpace(t[0]);
    assert TrimStart(t) == t;
    assert LeadingDigits(t) == [];
  }

  /** Text after the digits is ignored, as parseInt does. */
  lemma YearTrailingText()
    ensures ParseYear("2024abc") == Some(2024)
  {
    Year2024("2024abc");
  }

  /** Season names are matched exactly: "Spring" and "fall" are refused. */
  lemma SeasonSpelling(token: Option<string>, year: string, season: string,
                       fetcher: (int, Annict.SeasonSlug, string) -> FetcherOutcome)
    requires Present(token) && year == "2024" && (season == "Spring" || season == "fall")
    ensures Get(token, Some(year), Some(season), fetcher) == ApiResponse(400, Failure(InvalidSeason))
  {
    Year2024(year);
    assert season != "";
    assert season !in {"spring", "summer", "autumn", "winter"};
    SeasonCheckedFourth(token, Some(year), Some(season), fetcher);
  }

  // ---------------------------------------------------------------------------
  // The endpoint over the season fetcher

  /** The fetcher of the model: whatever is asked, the upstream answers with
      `replies`, which end pagination. fetchSeasonPrograms only ever throws an
      Error, so the model fetcher never ends in `ThrewOther`. */
  function ModelFetcher(replies: seq<Annict.Reply>, instant: string -> int): (f: (int, Annict.SeasonSlug, string) -> FetcherOutcome)
    requires Annict.Terminates(replies)
    ensures forall y, s, t :: !f(y, s, t).ThrewOther?
    ensures forall y, s, t :: f(y, s, t).Returned? <==> Annict.FetchResult(replies, instant).Ok?
  {
    (y: int, s: Annict.SeasonSlug, t: string) =>
      match Annict.FetchResult(replies, instant)
      case Ok(rows) => Returned(rows)
      case Err(m) => ThrewError(m)
  }

  /** A 200 answer carries the fetched rows, in order of start instant. */
  lemma EndpointRowsSorted(token: Option<string>, year: Option<string>, season: Option<string>,
                           replies: seq<Annict.Reply>, instant: string -> int)
    requires Annict.Terminates(replies)
    ensures var r := Get(token, year, season, ModelFetcher(replies, instant));
            r.status == 200 ==>
              && Annict.FetchResult(replies, instant) == Ok(r.body.rows)
              && forall i, j :: 0 <= i < j < |r.body.rows| ==>
                   instant(r.body.rows[i].startedAt) <= instant(r.body.rows[j].startedAt)
  {
    if Annict.FetchResult(replies, instant).Ok? {
      Annict.FetchedRowsSorted(replies, instant);
    }
  }

  lemma Status503Message()
    ensures Annict.ApiErrorPrefix + NumberText(503) + " " + "Service Unavailable"
            == "Annict API error: 503 Service Unavailable"
  {
    assert Digits(5) == "5";
    assert Digits(50) == "50" by { assert Digits(50) == Digits(5) + ['0']; }
    assert Digits(503) == "503" by { assert Digits(503) == Digits(50) + ['3']; }
    Message503(NumberText(503));
  }

  /** The 503 error message, once the status has been written out. */
  lemma Message503(numeral: string)
    requires numeral == "503"
    ensures Annict.ApiErrorPrefix + numeral + " " + "Service Unavailable"
            == "Annict API error: 503 Service Unavailable"
  {
  }

  /** A lone 503 reply makes the fetch throw "Annict API error: 503 …". */
  lemma UpstreamThrows(instant: string -> int, replies: seq<Annict.Reply>)
    requires replies == [Annict.Response(503, "Service Unavailable", Annict.Payload(None, []))]
    ensures Annict.Terminates(replies)
    ensures Annict.FetchResult(replies, instant) == Err("Annict API error: 503 Service Unavailable")
  {
    assert !Annict.StepOf(replies[0]).More?;
    Annict.HttpErrorAborts(replies, instant, 0);
    Status503Message();
  }

  /** An upstream answer of 503 to a request that passes every check becomes a
      502 carrying "Annict API error: 503 …". */
  lemma UpstreamUnavailable(token: Option<string>, year: Option<string>, season: Option<string>,
                             instant: string -> int, replies: seq<Annict.Reply>)
    requires Present(token) && Present(year) && Present(season)
    requires ParseYear(year.value).Some? && Annict.ToSeasonSlug(season.value).Ok?
    requires replies == [Annict.Response(503, "Service Unavailable", Annict.Payload(None, []))]
    ensures Annict.Terminates(replies)
    ensures Get(token, year, season, ModelFetcher(replies, instant))
              == ApiResponse(502, Failure("Annict API error: 503 Service Unavailable"))
  {
    UpstreamThrows(instant, replies);
    FetcherOutcomeMapped(token, year, season, ModelFetcher(replies, instant));
  }
}
