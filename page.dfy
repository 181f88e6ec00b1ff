/** The search page's selection state: the rows of the last successful search, the
    channel filter, the selected works (as row keys) and the error shown. The pure
    derivations (row keys, the channel list, the filtered rows, the recording-list
    items) are functions; the handlers that replace a set through its setter are
    methods of `Home`, whose fields are the page's state variables. */
module SearchPage {
  import opened Common
  import TextOrder
  import ChannelCategories
  import Annict
  import SeasonRoute

  type Row = Annict.SeasonProgramRow

  // ---------------------------------------------------------------------------
  // Row keys

  /** The key a row is selected under: title, channel and start joined by "|". */
  function RowKey(row: Row): string {
    row.title + "|" + row.channelName + "|" + row.startedAt
  }

  /** In `x + "|" + y` with no "|" in `x`, the first "|" is the one after `x`. */
  lemma FirstBar(x: string, y: string)
    requires '|' !in x
    ensures (x + "|" + y)[|x|] == '|'
    ensures forall i :: 0 <= i < |x| ==> (x + "|" + y)[i] != '|'
  {
    forall i | 0 <= i < |x| ensures (x + "|" + y)[i] != '|' {
      assert (x + "|" + y)[i] == x[i];
    }
  }

  /** Text before the first "|" and text after it are recovered from the join. */
  lemma SplitAtBar(x: string, y: string, x': string, y': string)
    requires '|' !in x && '|' !in x'
    requires x + "|" + y == x' + "|" + y'
    ensures x == x' && y == y'
  {
    var s := x + "|" + y;
    FirstBar(x, y);
    FirstBar(x', y');
    assert |x| == |x'|;
    assert x == s[..|x|] && x' == s[..|x'|];
    assert y == s[|x| + 1..] && y' == s[|x'| + 1..];
  }

  /** Rows with the same title, channel and start share a key, so they are selected
      and deselected together; when titles and channel names contain no "|", rows
      with different fields have different keys. */
  lemma RowKeyIdentifies(a: Row, b: Row)
    requires '|' !in a.title && '|' !in a.channelName && '|' !in b.title && '|' !in b.channelName
    ensures RowKey(a) == RowKey(b) <==> a == b
  {
    if RowKey(a) == RowKey(b) {
      assert RowKey(a) == a.title + "|" + (a.channelName + "|" + a.startedAt);
      assert RowKey(b) == b.title + "|" + (b.channelName + "|" + b.startedAt);
      SplitAtBar(a.title, a.channelName + "|" + a.startedAt, b.title, b.channelName + "|" + b.startedAt);
      SplitAtBar(a.channelName, a.startedAt, b.channelName, b.startedAt);
    }
  }

  /** A "|" inside a title or channel name lets two different rows share a key. */
  lemma RowKeyCollision(t: string)
    ensures var a := Annict.Row("A|B", "C", t);
            var b := Annict.Row("A", "B|C", t);
            a != b && RowKey(a) == RowKey(b)
  {
    var a := Annict.Row("A|B", "C", t);
    var b := Annict.Row("A", "B|C", t);
    assert a.title != b.title;
    assert RowKey(a) == ['A', '|', 'B', '|', 'C', '|'] + t;
    assert RowKey(b) == ['A', '|', 'B', '|', 'C', '|'] + t;
  }

  // ---------------------------------------------------------------------------
  // Toggles

  /** Copy the set, then delete `k` if it is there and add it otherwise. */
  function Toggle(s: set<string>, k: string): (r: set<string>)
    ensures k in r <==> k !in s
    ensures forall x :: x != k ==> (x in r <==> x in s)
  {
    if k in s then s - {k} else s + {k}
  }

  /** Toggling the same key twice restores the set. */
  lemma ToggleTwice(s: set<string>, k: string)
    ensures Toggle(Toggle(s, k), k) == s
  {
  }

  // ---------------------------------------------------------------------------
  // Derived lists

  /** `rows ?? []`. */
  function RawRows(rows: Option<seq<Row>>): seq<Row> {
    if rows.Some? then rows.value else []
  }

  /** The channel name of every row, in row order. */
  function Channels(raw: seq<Row>): (r: seq<string>)
    ensures |r| == |raw| && forall i :: 0 <= i < |raw| ==> r[i] == raw[i].channelName
  {
    seq(|raw|, i requires 0 <= i < |raw| => raw[i].channelName)
  }

  /** `[...new Set(s)]`: every element once, in order of first occurrence. */
  function Distinct(s: seq<string>): (r: seq<string>)
    ensures NoDuplicates(r)
    ensures forall x :: x in r <==> x in s
    decreases |s|
  {
    if s == [] then []
    else
      var d := Distinct(s[..|s| - 1]);
      assert s == s[..|s| - 1] + [s[|s| - 1]];
      if s[|s| - 1] in d then d else d + [s[|s| - 1]]
  }

  /** The channel list: the rows' channel names without repetitions, sorted. */
  function ChannelNames(raw: seq<Row>): seq<string> {
    TextOrder.Sort(Distinct(Channels(raw)))
  }

  /** The channel list is strictly ascending and holds exactly the channels that
      occur in the rows. */
  lemma ChannelNamesMeaning(raw: seq<Row>)
    ensures TextOrder.StrictlyAscending(ChannelNames(raw))
    ensures forall n :: n in ChannelNames(raw) <==> exists i :: 0 <= i < |raw| && raw[i].channelName == n
  {
    var d := Distinct(Channels(raw));
    var names := ChannelNames(raw);
    assert multiset(names) == multiset(d);
    forall i, j | 0 <= i < j < |names| ensures names[i] != names[j] {
      if names[i] == names[j] {
        RepeatedCount(names, i, j);
        NoDuplicatesCount(d, names[i]);
        assert false;
      }
    }
    TextOrder.DistinctAscendingIsStrict(names);
    forall n ensures n in names <==> exists i :: 0 <= i < |raw| && raw[i].channelName == n {
      assert n in names <==> n in multiset(d);
      if n in Channels(raw) {
        var i :| 0 <= i < |raw| && Channels(raw)[i] == n;
        assert raw[i].channelName == n;
      }
    }
  }

  /** With no channel selected every row is shown; otherwise the rows whose channel
      is selected, in their order. */
  function FilteredRows(raw: seq<Row>, selectedChannels: set<string>): seq<Row> {
    if |selectedChannels| > 0 then Filter(raw, (r: Row) => r.channelName in selectedChannels) else raw
  }

  /** The filter shows everything when nothing is selected; otherwise it keeps the
      rows' order and keeps exactly the rows on a selected channel, each as often as
      it occurs. */
  lemma FilteredRowsMeaning(raw: seq<Row>, selectedChannels: set<string>)
    ensures selectedChannels == {} ==> FilteredRows(raw, selectedChannels) == raw
    ensures selectedChannels != {} ==>
              && IsSubsequence(FilteredRows(raw, selectedChannels), raw)
              && forall row :: multiset(FilteredRows(raw, selectedChannels))[row]
                                 == if row.channelName in selectedChannels then multiset(raw)[row] else 0
  {
    if selectedChannels != {} {
      assert |selectedChannels| > 0;
      FilterIsSelection(raw, (r: Row) => r.channelName in selectedChannels);
    }
  }

  /** Selecting every channel of the list shows every row, as no filter does. */
  lemma AllChannelsShowEverything(raw: seq<Row>)
    ensures FilteredRows(raw, set n | n in ChannelNames(raw)) == raw
  {
    var all := set n | n in ChannelNames(raw);
    ChannelNamesMeaning(raw);
    if |all| > 0 {
      forall i | 0 <= i < |raw| ensures raw[i].channelName in all {
        assert raw[i].channelName in ChannelNames(raw);
      }
      FilterAll(raw, (r: Row) => r.channelName in all);
    }
  }

  /** The recording list: the shown rows whose key is selected, in their order. */
  function RecordingItems(filtered: seq<Row>, selectedWorks: set<string>): seq<Row> {
    Filter(filtered, (r: Row) => RowKey(r) in selectedWorks)
  }

  /** The recording list keeps the shown rows' order and keeps exactly the shown
      rows whose key is selected. */
  lemma RecordingItemsMeaning(filtered: seq<Row>, selectedWorks: set<string>)
    ensures IsSubsequence(RecordingItems(filtered, selectedWorks), filtered)
    ensures forall row :: multiset(RecordingItems(filtered, selectedWorks))[row]
                            == if RowKey(row) in selectedWorks then multiset(filtered)[row] else 0
  {
    FilterIsSelection(filtered, (r: Row) => RowKey(r) in selectedWorks);
  }

  /** After "select all works" every shown row goes on the recording list. */
  lemma AllWorksRecordEverything(filtered: seq<Row>)
    ensures RecordingItems(filtered, set r | r in filtered :: RowKey(r)) == filtered
  {
    var keys := set r | r in filtered :: RowKey(r);
    forall i | 0 <= i < |filtered| ensures RowKey(filtered[i]) in keys {
      assert filtered[i] in filtered;
    }
    FilterAll(filtered, (r: Row) => RowKey(r) in keys);
  }

  /** After "clear works" the recording list is empty, so nothing is stored. */
  lemma NoWorksRecordNothing(filtered: seq<Row>)
    ensures RecordingItems(filtered, {}) == []
  {
    var items := RecordingItems(filtered, {});
    RecordingItemsMeaning(filtered, {});
    assert multiset(items) == multiset{};
  }

  /** `channelsByCategory[key]`: the category's group of the channel list. */
  function CategoryList(raw: seq<Row>, key: ChannelCategories.Category): seq<string> {
    ChannelCategories.Group(ChannelCategories.Grouped(ChannelNames(raw), ChannelCategories.GetChannelCategory), key)
  }

  /** Group the channel list with groupChannelsByCategory and take one group. */
  method CategoryNames(raw: seq<Row>, key: ChannelCategories.Category) returns (names: seq<string>)
    ensures names == CategoryList(raw, key)
    ensures Elements(names) == CategoryChannels(raw, key)
  {
    var channelsByCategory := ChannelCategories.GroupChannelsByCategory(ChannelNames(raw));
    names := ChannelCategories.Group(channelsByCategory, key);
  }

  /** The strings of a list, as a set (`new Set(list)`). */
  function Elements(list: seq<string>): set<string> {
    set n | n in list
  }

  /** Copy `s`, then delete every name of `names` from the copy, one by one. */
  method DeleteAll(s: set<string>, names: seq<string>) returns (next: set<string>)
    ensures next == s - Elements(names)
  {
    next := s;
    for i := 0 to |names|
      invariant forall n :: n in next <==> n in s && n !in names[..i]
    {
      next := next - {names[i]};
      assert names[..i + 1] == names[..i] + [names[i]];
    }
    assert names[..|names|] == names;
    assert forall n :: n in next <==> n in s && n !in Elements(names);
  }

  /** The channels of a category among the channel list. */
  function CategoryChannels(raw: seq<Row>, key: ChannelCategories.Category): set<string> {
    Elements(CategoryList(raw, key))
  }

  /** A category's channels are the rows' channels that the classifier puts in it. */
  lemma CategoryChannelsMeaning(raw: seq<Row>, key: ChannelCategories.Category, n: string)
    ensures n in CategoryChannels(raw, key)
            <==> (exists i :: 0 <= i < |raw| && raw[i].channelName == n)
                 && ChannelCategories.GetChannelCategory(n) == key
  {
    ChannelNamesMeaning(raw);
    ChannelCategories.GroupMembership(ChannelNames(raw), ChannelCategories.GetChannelCategory, key, n);
  }

  // ---------------------------------------------------------------------------
  // Searching

  /** How a search ends: the endpoint answers `{ok: true, rows}`, answers
      `{ok: false}` with or without an `error`, or the request or its JSON fails. */
  datatype SearchOutcome = Loaded(rows: seq<Row>) | Refused(error: Option<string>) | NetworkError

  const DefaultSearchError := "取得に失敗しました"
  const NetworkErrorMessage := "通信エラーが発生しました"

  /** The error shown after a search: none after success, `data.error ?? default`
      after a refusal, the network message after a failure. */
  function ShownError(outcome: SearchOutcome): (e: Option<string>)
    ensures e.None? <==> outcome.Loaded?
  {
    match outcome
    case Loaded(_) => None
    case Refused(error) => Some(if error.Some? then error.value else DefaultSearchError)
    case NetworkError => Some(NetworkErrorMessage)
  }

  /** What the page reads from the endpoint's JSON body. */
  function OutcomeOf(response: SeasonRoute.ApiResponse): SearchOutcome {
    match response.body
    case Success(rows) => Loaded(rows)
    case Failure(error) => Refused(Some(error))
  }

  /** The page shows the rows exactly when the endpoint answers 200, and otherwise
      shows the endpoint's own message. */
  lemma EndpointAnswerShown(token: Option<string>, year: Option<string>, season: Option<string>,
                            fetcher: (int, Annict.SeasonSlug, string) -> SeasonRoute.FetcherOutcome)
    ensures var response := SeasonRoute.Get(token, year, season, fetcher);
            && (OutcomeOf(response).Loaded? <==> response.status == 200)
            && (response.status != 200 ==> ShownError(OutcomeOf(response)) == Some(response.body.error))
  {
  }

  /** The page's state. */
  class Home {
    var rows: Option<seq<Row>>
    var selectedChannels: set<string>
    var selectedWorks: set<string>
    var error: Option<string>

    /** No rows yet, nothing selected, no error. */
    constructor ()
      ensures rows == None && selectedChannels == {} && selectedWorks == {} && error == None
    {
      rows := None;
      selectedChannels := {};
      selectedWorks := {};
      error := None;
    }

    /** Flip the selection of the row's key, and of nothing else. */
    method ToggleWork(row: Row)
      modifies this
      ensures selectedWorks == Toggle(old(selectedWorks), RowKey(row))
      ensures rows == old(rows) && selectedChannels == old(selectedChannels) && error == old(error)
    {
      var key := RowKey(row);
      var next := selectedWorks;
      if key in next {
        next := next - {key};
      } else {
        next := next + {key};
      }
      selectedWorks := next;
    }

    /** Select exactly the keys of the shown rows. */
    method SelectAllWorks()
      modifies this
      ensures selectedWorks == set r | r in FilteredRows(RawRows(rows), selectedChannels) :: RowKey(r)
      ensures rows == old(rows) && selectedChannels == old(selectedChannels) && error == old(error)
    {
      selectedWorks := set r | r in FilteredRows(RawRows(rows), selectedChannels) :: RowKey(r);
    }

    method ClearWorks()
      modifies this
      ensures selectedWorks == {}
      ensures rows == old(rows) && selectedChannels == old(selectedChannels) && error == old(error)
    {
      selectedWorks := {};
    }

    /** The items stored for the recording-list page: the shown rows whose key is
        selected, in their order; `None` (nothing stored, no navigation) when there
        are none. */
    method CreateRecordingList() returns (items: Option<seq<Row>>)
      ensures var shown := FilteredRows(RawRows(rows), selectedChannels);
              items.None? <==> forall i :: 0 <= i < |shown| ==> RowKey(shown[i]) !in selectedWorks
      ensures var shown := FilteredRows(RawRows(rows), selectedChannels);
              items.Some? ==>
                && IsSubsequence(items.value, shown)
                && forall row :: multiset(items.value)[row]
                                   == if RowKey(row) in selectedWorks then multiset(shown)[row] else 0
    {
      var shown := FilteredRows(RawRows(rows), selectedChannels);
      var picked := RecordingItems(shown, selectedWorks);
      RecordingItemsMeaning(shown, selectedWorks);
      if |picked| == 0 {
        forall i | 0 <= i < |shown| ensures RowKey(shown[i]) !in selectedWorks {
          assert shown[i] in multiset(shown);
        }
        items := None;
      } else {
        assert picked[0] in multiset(picked);
        items := Some(picked);
      }
    }

    /** Flip the selection of one channel, and of nothing else. */
    method ToggleChannel(name: string)
      modifies this
      ensures selectedChannels == Toggle(old(selectedChannels), name)
      ensures rows == old(rows) && selectedWorks == old(selectedWorks) && error == old(error)
    {
      var next := selectedChannels;
      if name in next {
        next := next - {name};
      } else {
        next := next + {name};
      }
      selectedChannels := next;
    }

    /** Select every channel of the channel list. */
    method SelectAllChannels()
      modifies this
      ensures selectedChannels == set n | n in ChannelNames(RawRows(rows))
      ensures rows == old(rows) && selectedWorks == old(selectedWorks) && error == old(error)
    {
      selectedChannels := set n | n in ChannelNames(RawRows(rows));
    }

    method ClearChannelFilter()
      modifies this
      ensures selectedChannels == {}
      ensures rows == old(rows) && selectedWorks == old(selectedWorks) && error == old(error)
    {
      selectedChannels := {};
    }

    /** Add the category's channels to the selection, keeping every other one. */
    method SelectCategory(key: ChannelCategories.Category)
      modifies this
      ensures selectedChannels == old(selectedChannels) + CategoryChannels(RawRows(rows), key)
      ensures rows == old(rows) && selectedWorks == old(selectedWorks) && error == old(error)
    {
      var names := CategoryNames(RawRows(rows), key);
      var added := Elements(names);
      selectedChannels := selectedChannels + added;
    }

    /** Delete the category's channels from a copy of the selection, one by one,
        keeping every other one. */
    method ClearCategory(key: ChannelCategories.Category)
      modifies this
      ensures selectedChannels == old(selectedChannels) - CategoryChannels(RawRows(rows), key)
      ensures rows == old(rows) && selectedWorks == old(selectedWorks) && error == old(error)
    {
      var names := CategoryNames(RawRows(rows), key);
      selectedChannels := DeleteAll(selectedChannels, names);
    }

    /** Settle a search: the error is reset and the rows are dropped; a success
        installs the new rows and empties the channel filter, a refusal or a failure
        shows its message. The selected works are kept either way. */
    method HandleSearch(outcome: SearchOutcome)
      modifies this
      ensures rows == if outcome.Loaded? then Some(outcome.rows) else None
      ensures error == ShownError(outcome)
      ensures selectedChannels == if outcome.Loaded? then {} else old(selectedChannels)
      ensures selectedWorks == old(selectedWorks)
    {
      error := None;
      rows := None;
      match outcome
      case Loaded(found) =>
        rows := Some(found);
        selectedChannels := {};
      case Refused(message) =>
        error := Some(if message.Some? then message.value else DefaultSearchError);
      case NetworkError =>
        error := Some(NetworkErrorMessage);
    }
  }
}
