/**
 * `WeatherStationOrchestrator` of `meteo/orchestrator`: choose a city, list
 * its stations in navigator order, put the navigator on the chosen one, then
 * browse station by station until the user quits or restarts. The user's
 * answers are given: a city picker, a station picker, and one answer per
 * navigation prompt, each a function of the labels offered.
 */
module Orchestrator {
  import opened Wrappers
  import opened Text
  import opened Tables
  import opened Navigator
  import opened DataService
  import opened Presentation
  import opened Extractor
  import opened NavigatorFactory
  import Filters

  function Min(a: int, b: int): int
  {
    if a <= b then a else b
  }

  /** The dataset ids of `stations`, in order. */
  function IdsOf(stations: seq<Station>): (r: seq<string>)
    ensures |r| == |stations|
    ensures forall i :: 0 <= i < |stations| ==> r[i] == stations[i].datasetId
  {
    seq(|stations|, i requires 0 <= i < |stations| => stations[i].datasetId)
  }

  /**
   * The first `k` names the listing loop collects when it starts at cursor
   * `c`: the i-th is the `clean`ed id of station `min(c + i, total - 1)`, as
   * `next()` stays on the last station.
   */
  ghost function Listing(stations: seq<Station>, c: nat, k: nat, clean: string -> string): (r: seq<string>)
    requires k <= |stations|
    ensures |r| == k
  {
    if k == 0 then []
    else Listing(stations, c, k - 1, clean) + [clean(stations[Min(c + k - 1, |stations| - 1)].datasetId)]
  }

  /** Started on the first station, the listing holds every station's name, in navigator order. */
  lemma {:induction false} ListingFromStart(stations: seq<Station>, k: nat, clean: string -> string)
    requires k <= |stations|
    ensures forall i :: 0 <= i < k ==> Listing(stations, 0, k, clean)[i] == clean(stations[i].datasetId)
  {
    if k > 0 {
      ListingFromStart(stations, k - 1, clean);
    }
  }

  /** Names given station by station by `CleanStationName` are the `DisplayNames` of the ids. */
  lemma DisplayNamesOf(stations: seq<Station>, names: seq<string>)
    requires |names| == |stations|
    requires forall i :: 0 <= i < |stations| ==> names[i] == CleanStationName(stations[i].datasetId)
    ensures names == DisplayNames(IdsOf(stations))
  {
  }

  /**
   * Building `stations_list`: `get_total()` rounds, each appending the
   * current station's display name and moving on when there is a next one.
   * The name cleaning is a parameter only to keep its definition out of the
   * loop's proof; the workflow passes `CleanStationName`.
   */
  method BuildDisplayList(nav: StationLinkedList, clean: string -> string) returns (names: seq<string>)
    requires nav.Valid()
    modifies nav
    ensures nav.Valid() && nav.Nodes == old(nav.Nodes)
    ensures names == Listing(nav.Contents(), old(nav.Cursor), |nav.Contents()|, clean)
  {
    ghost var c0 := nav.Cursor;
    ghost var stations := nav.Contents();
    ghost var n := |stations|;
    var total := nav.GetTotal();
    names := [];
    for i := 0 to total
      invariant nav.Valid() && nav.Nodes == old(nav.Nodes) && nav.Contents() == stations
      invariant names == Listing(stations, c0, i, clean)
      invariant n > 0 ==> nav.Cursor == Min(c0 + i, n - 1)
    {
      var name := DisplayStep(nav, clean);
      if name.Some? {
        names := names + [name.value];
      }
    }
  }

  /**
   * One round of the listing loop: the current station's name, then
   * `next()` if there is a next station. The loop body is a method of its
   * own so that it is proved once; the source has no such function.
   */
  method DisplayStep(nav: StationLinkedList, clean: string -> string) returns (name: Option<string>)
    requires nav.Valid()
    modifies nav
    ensures nav.Valid() && nav.Nodes == old(nav.Nodes)
    ensures name.None? <==> nav.Contents() == []
    ensures name.Some? ==> name.value == clean(nav.Contents()[old(nav.Cursor)].datasetId)
    ensures nav.Contents() != [] ==> nav.Cursor == Min(old(nav.Cursor) + 1, |nav.Contents()| - 1)
  {
    var current := nav.GetCurrent();
    name := if current.Some? then Some(clean(current.value.datasetId)) else None;
    if nav.HasNext() {
      var moved := nav.Next();
    }
  }

  /**
   * `reset()` then `k` calls of `next()`: the navigator is on the station at
   * index `k`, or on the last one when `k` is past the end.
   */
  method Realign(nav: StationLinkedList, k: nat)
    requires nav.Valid()
    modifies nav
    ensures nav.Valid() && nav.Nodes == old(nav.Nodes)
    ensures nav.Contents() != [] ==> nav.Position() == Min(k + 1, |nav.Contents()|)
    ensures nav.Contents() == [] ==> nav.Position() == 0
  {
    nav.Reset();
    ghost var n := |nav.Contents()|;
    for j := 0 to k
      invariant nav.Valid() && nav.Nodes == old(nav.Nodes)
      invariant n > 0 ==> nav.Cursor == Min(j, n - 1)
    {
      var moved := nav.Next();
    }
  }

  /** The navigation prompt's options. */
  datatype Choice = PreviousStation | NextStation | ChooseAnother | Quit

  function Label(c: Choice): string
  {
    match c
    case PreviousStation => "← Station précédente"
    case NextStation => "Station suivante →"
    case ChooseAnother => "⟲ Choisir une autre station"
    case Quit => "✗ Quitter"
  }

  /**
   * The options offered after a station is shown: "previous" exactly when
   * there is a previous station, "next" exactly when there is a next one,
   * then always "another station" and "quit", in that order.
   */
  function Menu(hasPrevious: bool, hasNext: bool): (m: seq<Choice>)
    ensures PreviousStation in m <==> hasPrevious
    ensures NextStation in m <==> hasNext
    ensures |m| >= 2 && m[|m| - 2] == ChooseAnother && m[|m| - 1] == Quit
    ensures ChooseAnother !in m[..|m| - 2] && Quit !in m[..|m| - 2]
    ensures hasPrevious ==> m[0] == PreviousStation
    ensures hasNext ==> m[|m| - 3] == NextStation
    // each option at most once
    ensures |m| == (if hasPrevious then 1 else 0) + (if hasNext then 1 else 0) + 2
  {
    (if hasPrevious then [PreviousStation] else []) + (if hasNext then [NextStation] else []) + [ChooseAnother, Quit]
  }

  function Labels(m: seq<Choice>): (r: seq<string>)
    ensures |r| == |m|
    ensures forall i :: 0 <= i < |m| ==> r[i] == Label(m[i])
  {
    seq(|m|, i requires 0 <= i < |m| => Label(m[i]))
  }

  /** What the browse loop does with an answer. */
  datatype Action = MovePrevious | MoveNext | Restart | Stop | AskAgain

  /**
   * The `if`/`elif` chain on the answer: previous and next move, "another
   * station" restarts, quit or no answer stops, anything else asks again.
   */
  function Dispatch(answer: Option<string>): (a: Action)
    ensures answer.None? ==> a == Stop
    // an answer that is none of the four labels asks again, and only such an answer does
    ensures a == AskAgain <==> answer.Some? && forall c :: answer.value != Label(c)
  {
    if answer == Some(Label(PreviousStation)) then MovePrevious
    else if answer == Some(Label(NextStation)) then MoveNext
    else if answer == Some(Label(ChooseAnother)) then Restart
    else if answer == Some(Label(Quit)) || answer.None? then Stop
    else AskAgain
  }

  /** Every option's label dispatches to that option's action. */
  lemma DispatchLabel(c: Choice)
    ensures Dispatch(Some(Label(c))) == match c
      case PreviousStation => MovePrevious
      case NextStation => MoveNext
      case ChooseAnother => Restart
      case Quit => Stop
  {
    match c
    case PreviousStation =>
    case NextStation =>
      assert Label(NextStation)[0] != Label(PreviousStation)[0];
    case ChooseAnother =>
      assert Label(ChooseAnother)[0] != Label(PreviousStation)[0];
      assert Label(ChooseAnother)[0] != Label(NextStation)[0];
    case Quit =>
      assert Label(Quit)[0] != Label(PreviousStation)[0];
      assert Label(Quit)[0] != Label(NextStation)[0];
      assert Label(Quit)[0] != Label(ChooseAnother)[0];
  }

  /** How a browse loop ends. */
  datatype BrowseOutcome =
    | NoCurrent      // "aucune station courante"
    | Stopped        // quit, or the prompt was cancelled
    | Restarted      // "choose another station": the workflow starts over
    | OutOfAnswers   // the given answers ran out while the loop was still asking
    | LoadFailed(error: TableError)  // `get_station_data` raised; the exception leaves the loop

  /** `get_station_data`, the service call the loop makes for the current station. */
  type Loader = string -> Result<Table, TableError>

  /** A user's answer to the navigation prompt, as a function of the labels offered. */
  type Answer = seq<string> -> Option<string>

  /** The answer given at cursor `cursor` of `n` stations. */
  function AnswerAt(answer: Answer, cursor: nat, n: nat): Option<string>
  {
    answer(Labels(Menu(cursor > 0, cursor + 1 < n)))
  }

  /** One navigation move: previous and next stop at the ends, as the navigator's do. */
  function Step(cursor: nat, n: nat, a: Action): (r: nat)
    requires cursor < n
    ensures r < n
    ensures a == MovePrevious ==> r == if cursor > 0 then cursor - 1 else cursor
    ensures a == MoveNext ==> r == if cursor + 1 < n then cursor + 1 else cursor
    ensures a != MovePrevious && a != MoveNext ==> r == cursor
  {
    match a
    case MovePrevious => if cursor > 0 then cursor - 1 else cursor
    case MoveNext => if cursor + 1 < n then cursor + 1 else cursor
    case _ => cursor
  }

  /**
   * The browse loop over the stations with ids `ids` as a function of the
   * answers: each round loads the current station's data, then asks and
   * moves. The result is how it ends, and on which station.
   */
  function Replay(cursor: nat, ids: seq<string>, load: Loader, answers: seq<Answer>): (r: (BrowseOutcome, nat))
    requires ids == [] || cursor < |ids|
    ensures ids == [] <==> r.0 == NoCurrent
    ensures ids != [] ==> r.1 < |ids|
    // a load error is the one raised for the station the loop stopped on
    ensures r.0.LoadFailed? ==> load(ids[r.1]) == Err(r.0.error)
    decreases |answers|
  {
    if ids == [] then (NoCurrent, cursor)
    else if load(ids[cursor]).Err? then (LoadFailed(load(ids[cursor]).error), cursor)
    else if answers == [] then (OutOfAnswers, cursor)
    else
      var a := Dispatch(AnswerAt(answers[0], cursor, |ids|));
      if a == Stop then (Stopped, cursor)
      else if a == Restart then (Restarted, cursor)
      else Replay(Step(cursor, |ids|, a), ids, load, answers[1..])
  }

  /** Next then previous comes back to the same station, except from the last one. */
  lemma StepNextThenPrevious(cursor: nat, n: nat)
    requires cursor + 1 < n
    ensures Step(Step(cursor, n, MoveNext), n, MovePrevious) == cursor
  {
  }

  /** One round of `Replay` once the data loaded: the first answer ends the loop or moves the cursor. */
  lemma ReplayFirst(cursor: nat, ids: seq<string>, load: Loader, answers: seq<Answer>, a: Action)
    requires cursor < |ids| && load(ids[cursor]).Ok? && answers != []
    requires a == Dispatch(AnswerAt(answers[0], cursor, |ids|))
    ensures a == Stop ==> Replay(cursor, ids, load, answers) == (Stopped, cursor)
    ensures a == Restart ==> Replay(cursor, ids, load, answers) == (Restarted, cursor)
    ensures a != Stop && a != Restart ==>
              Replay(cursor, ids, load, answers) == Replay(Step(cursor, |ids|, a), ids, load, answers[1..])
  {
  }

  /**
   * With the application's `ColumnFilter` the station data always loads, so
   * browsing never ends on a load error.
   */
  lemma {:induction false} ColumnFilterNeverFailsBrowsing(service: WeatherDataService, cursor: nat, ids: seq<string>,
                                                          answers: seq<Answer>)
    requires service.columnFilter == Filters.Columns
    requires ids == [] || cursor < |ids|
    ensures !Replay(cursor, ids, service.GetStationData, answers).0.LoadFailed?
    decreases |answers|
  {
    if ids != [] && answers != [] {
      assert service.GetStationData(ids[cursor]).Ok?;
      var a := Dispatch(AnswerAt(answers[0], cursor, |ids|));
      if a != Stop && a != Restart {
        ColumnFilterNeverFailsBrowsing(service, Step(cursor, |ids|, a), ids, answers[1..]);
      }
    }
  }

  /** Carries out a move on the navigator (the `if`/`elif` arms; a proof helper, not a source function). */
  method Act(nav: StationLinkedList, action: Action)
    requires nav.Valid() && nav.Contents() != []
    modifies nav
    ensures nav.Valid() && nav.Nodes == old(nav.Nodes)
    ensures nav.Cursor == Step(old(nav.Cursor), |nav.Contents()|, action)
  {
    if action == MovePrevious {
      var moved := nav.Previous();
    } else if action == MoveNext {
      var moved := nav.Next();
    }
  }

  /** The answer to the prompt at the navigator's current station (a proof helper, not a source function). */
  method Prompt(nav: StationLinkedList, answer: Answer) returns (r: Option<string>)
    requires nav.Valid() && nav.Contents() != []
    ensures r == AnswerAt(answer, nav.Cursor, |nav.Contents()|)
  {
    var menu := Menu(nav.HasPrevious(), nav.HasNext());
    r := answer(Labels(menu));
  }

  /**
   * One pass of the loop body after the data is shown: prompt with the menu
   * for the current station, then move as answered. A proof helper, not a
   * source function.
   */
  method BrowseStep(nav: StationLinkedList, answer: Answer) returns (action: Action)
    requires nav.Valid() && nav.Contents() != []
    modifies nav
    ensures nav.Valid() && nav.Nodes == old(nav.Nodes)
    ensures action == Dispatch(AnswerAt(answer, old(nav.Cursor), |nav.Contents()|))
    ensures nav.Cursor == Step(old(nav.Cursor), |nav.Contents()|, action)
  {
    var reply := Prompt(nav, answer);
    action := Dispatch(reply);
    Act(nav, action);
  }

  /**
   * The `while True` loop: take the current station, load and show its
   * data, offer the menu, act on the answer. It ends as `Replay` says, on
   * the station `Replay` says.
   */
  method Browse(nav: StationLinkedList, load: Loader, answers: seq<Answer>) returns (outcome: BrowseOutcome)
    requires nav.Valid()
    modifies nav
    ensures nav.Valid() && nav.Nodes == old(nav.Nodes)
    ensures (outcome, nav.Cursor) == Replay(old(nav.Cursor), IdsOf(nav.Contents()), load, answers)
  {
    ghost var ids := IdsOf(nav.Contents());
    var i := 0;
    while true
      invariant 0 <= i <= |answers|
      invariant nav.Valid() && nav.Nodes == old(nav.Nodes) && IdsOf(nav.Contents()) == ids
      invariant ids != [] ==> nav.Cursor < |ids|
      invariant Replay(nav.Cursor, ids, load, answers[i..]) == Replay(old(nav.Cursor), ids, load, answers)
      decreases |answers| - i
    {
      var current := nav.GetCurrent();
      if current.None? {
        return NoCurrent;
      }
      var data := load(current.value.datasetId);
      if data.Err? {
        return LoadFailed(data.error);
      }
      if i == |answers| {
        return OutOfAnswers;
      }
      ghost var cursor := nav.Cursor;
      var action := BrowseStep(nav, answers[i]);
      assert answers[i..][1..] == answers[i + 1..];
      ReplayFirst(cursor, ids, load, answers[i..], action);
      if action == Restart {
        return Restarted;
      } else if action == Stop {
        return Stopped;
      }
      i := i + 1;
    }
  }

  /** What the service's catalog load yields; it does not depend on the cache. */
  function CatalogOf(service: WeatherDataService): Result<Table, TableError>
  {
    ProcessCatalog(service.catalogData, service.catalogFilter)
  }

  /** The user's part in one pass of the workflow. */
  datatype Round = Round(chooseCity: seq<string> -> Option<string>, chooseStation: seq<string> -> Option<string>,
                         answers: seq<Answer>)

  /** How one pass of `_execute_workflow` ends. */
  datatype Outcome =
    | EmptyCatalog
    | NoCity
    | NoStations
    | NoStation
    | Browsed(browse: BrowseOutcome)
    | Failed(failure: Failure)

  /**
   * `_execute_workflow` as a function of the service's data and the user's
   * answers: each early return in order, then the browse loop started on
   * the first station whose display name is the one chosen.
   */
  ghost function Workflow(service: WeatherDataService, round: Round): Outcome
  {
    match CatalogOf(service)
    case Err(e) => Failed(FailureOf(e))
    case Ok(catalog) =>
      if IsEmpty(catalog) then EmptyCatalog
      else
        match GetUniqueCities(service.extractor, catalog)
        case Err(e) => Failed(FailureOf(e))
        case Ok(cities) =>
          var city := round.chooseCity(cities);
          if !Chosen(city) then NoCity
          else CityPhase(service, city.value, round)
  }

  /** The pass once `city` is chosen: its stations, if it has any, go to the navigator. */
  ghost function CityPhase(service: WeatherDataService, city: string, round: Round): Outcome
  {
    match service.StationIdsFor(city)
    case Err(e) => Failed(FailureOf(e))
    case Ok(ids) =>
      if ids == [] then NoStations
      else StationPhase(SortBy(MakeStations(ids, city), SortKey), service.GetStationData, round)
  }

  /**
   * The rest of the pass once the navigator holds `stations`: the user
   * picks a display name, and browsing starts on the first station with
   * that name.
   */
  ghost function StationPhase(stations: seq<Station>, load: Loader, round: Round): Outcome
  {
    PickPhase(DisplayNames(IdsOf(stations)), IdsOf(stations), load, round)
  }

  /**
   * Picking one of the listed `names` of the stations `ids`, then browsing
   * from it; a load error in the loop leaves the workflow as a failure.
   */
  ghost function PickPhase(names: seq<string>, ids: seq<string>, load: Loader, round: Round): Outcome
    requires |names| == |ids|
  {
    var chosen := round.chooseStation(names);
    if !Chosen(chosen) then NoStation
    else
      match FirstIndexOf(names, chosen.value)
      case None => Failed(OtherFailure)
      case Some(k) => Ended(Replay(k, ids, load, round.answers).0)
  }

  /** How the pass ends once browsing has: a load error reaches `run` as a failure. */
  function Ended(browse: BrowseOutcome): (o: Outcome)
    ensures browse.LoadFailed? <==> o.Failed?
    ensures browse.LoadFailed? ==> o.failure == FailureOf(browse.error)
    ensures !browse.LoadFailed? ==> o == Browsed(browse)
  {
    if browse.LoadFailed? then Failed(FailureOf(browse.error)) else Browsed(browse)
  }

  /** `_execute_workflow`: one pass, ending as `Workflow` says; the catalog is loaded at most once. */
  method ExecuteWorkflow(service: WeatherDataService, round: Round) returns (o: Outcome)
    requires service.Valid()
    modifies service
    ensures service.Valid()
    ensures o == Workflow(service, round)
    ensures old(service.processedCatalog).Some? ==> service.catalogLoads == old(service.catalogLoads)
  {
    var catalog := service.GetProcessedCatalog();
    if catalog.Err? {
      return Failed(FailureOf(catalog.error));
    }
    if IsEmpty(catalog.value) {
      return EmptyCatalog;
    }
    var cities := service.GetCities();
    if cities.Err? {
      return Failed(FailureOf(cities.error));
    }
    var city := round.chooseCity(cities.value);
    if !Chosen(city) {
      return NoCity;
    }
    o := ForCity(service, city.value, round);
  }

  /** From `get_stations_for_city` on; a part of `_execute_workflow`, cut out to be proved on its own. */
  method ForCity(service: WeatherDataService, city: string, round: Round) returns (o: Outcome)
    requires service.Valid()
    modifies service
    ensures service.Valid()
    ensures o == CityPhase(service, city, round)
    ensures old(service.processedCatalog).Some? ==> service.catalogLoads == old(service.catalogLoads)
  {
    var found := service.GetStationsForCity(city);
    if found.Err? {
      return Failed(FailureOf(found.error));
    }
    var nav := found.value;
    if nav.GetTotal() == 0 {
      return NoStations;
    }
    assert nav.Cursor == 0;
    o := ChooseAndBrowse(nav, service.GetStationData, round);
  }

  /**
   * Lists the stations, lets the user pick one, puts the navigator on it and
   * browses. Not a function of the source: `_execute_workflow` is cut into
   * `ForCity`, `ChooseAndBrowse` and `PickAndBrowse` only so that each part
   * is proved on its own.
   */
  method ChooseAndBrowse(nav: StationLinkedList, load: Loader, round: Round) returns (o: Outcome)
    requires nav.Valid() && nav.Contents() != [] && nav.Cursor == 0
    modifies nav
    ensures o == StationPhase(old(nav.Contents()), load, round)
  {
    ghost var stations := nav.Contents();
    var names := BuildDisplayList(nav, CleanStationName);
    ListingFromStart(stations, |stations|, CleanStationName);
    DisplayNamesOf(stations, names);
    o := PickAndBrowse(nav, names, load, round);
  }

  /**
   * `reset()`, the station choice among `names`, `reset()` and `index`
   * calls of `next()` to reach it, then the browsing loop, whose load
   * error propagates.
   */
  method PickAndBrowse(nav: StationLinkedList, names: seq<string>, load: Loader, round: Round) returns (o: Outcome)
    requires nav.Valid() && |names| == |nav.Contents()| && names != []
    modifies nav
    ensures o == PickPhase(names, IdsOf(old(nav.Contents())), load, round)
  {
    nav.Reset();
    var chosen := round.chooseStation(names);
    if !Chosen(chosen) {
      return NoStation;
    }
    var index := FirstIndexOf(names, chosen.value);
    if index.None? {
      return Failed(OtherFailure);
    }
    Realign(nav, index.value);
    var browse := Browse(nav, load, round.answers);
    return Ended(browse);
  }


  /** What `run` ends with. */
  datatype RunResult =
    | Finished(outcome: Outcome)   // the workflow returned
    | ErrorShown(header: string)   // an exception reached `run`, which showed this header
    | OutOfRounds                  // the user restarted more often than the rounds given

  /** `run`: the workflow, started over on "choose another station", with failures turned into headers. */
  ghost function RunRounds(service: WeatherDataService, rounds: seq<Round>): RunResult
  {
    if rounds == [] then OutOfRounds
    else
      match Workflow(service, rounds[0])
      case Failed(f) => ErrorShown(ErrorHeader(f))
      case Browsed(Restarted) => RunRounds(service, rounds[1..])
      case o => Finished(o)
  }

  /**
   * `run`: the restart recursion of `_execute_workflow` is a loop over the
   * user's rounds. However often the user restarts, the catalog loader runs
   * at most once while the catalog filter succeeds.
   */
  method Run(service: WeatherDataService, rounds: seq<Round>) returns (r: RunResult)
    requires service.Valid()
    modifies service
    ensures service.Valid()
    ensures r == RunRounds(service, rounds)
    ensures CatalogOf(service).Ok? ==> service.catalogLoads <= 1
  {
    var i := 0;
    while i < |rounds|
      invariant 0 <= i <= |rounds|
      invariant service.Valid()
      invariant RunRounds(service, rounds[i..]) == RunRounds(service, rounds)
    {
      assert rounds[i..][1..] == rounds[i + 1..];
      var o := ExecuteWorkflow(service, rounds[i]);
      if o.Failed? {
        return ErrorShown(ErrorHeader(o.failure));
      }
      if o != Browsed(Restarted) {
        return Finished(o);
      }
      i := i + 1;
    }
    return OutOfRounds;
  }

  /** A catalog that fails to load (a missing column) ends `run` on the configuration header, at the first round. */
  lemma BrokenCatalogShowsConfigurationError(service: WeatherDataService, rounds: seq<Round>)
    requires CatalogOf(service).Err? && rounds != []
    ensures RunRounds(service, rounds) == ErrorShown("ERREUR DE CONFIGURATION")
  {
  }

  /**
   * The browse loop is reached only after a non-empty catalog, a chosen
   * city with at least one station, and a chosen station name; and it
   * always has a current station.
   */
  lemma BrowsingNeedsEverySelection(service: WeatherDataService, round: Round)
    requires Workflow(service, round).Browsed?
    ensures CatalogOf(service).Ok? && !IsEmpty(CatalogOf(service).value)
    ensures GetUniqueCities(service.extractor, CatalogOf(service).value).Ok?
    ensures Chosen(round.chooseCity(GetUniqueCities(service.extractor, CatalogOf(service).value).value))
    ensures var city := round.chooseCity(GetUniqueCities(service.extractor, CatalogOf(service).value).value).value;
            && service.StationIdsFor(city).Ok? && service.StationIdsFor(city).value != []
            && var names := DisplayNames(IdsOf(SortBy(MakeStations(service.StationIdsFor(city).value, city), SortKey)));
               Chosen(round.chooseStation(names)) && round.chooseStation(names).value in names
    ensures Workflow(service, round).browse != NoCurrent && !Workflow(service, round).browse.LoadFailed?
  {
  }
}
