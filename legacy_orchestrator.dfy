/**
 * `WeatherStationOrchestrator` of `orchestrator/`: the earlier, loop-free
 * workflow. The data service is seen through what its calls return, the
 * station lookup giving a list of ids; the user's picks are functions of the
 * lists offered.
 */
module LegacyOrchestrator {
  import opened Wrappers
  import opened Tables
  import opened Presentation

  /**
   * `station_display_names.index(choice)` then `stations_ids[index]`: the
   * first id whose display name is `choice`; a name not on the list is the
   * `ValueError` of `index`.
   */
  function ChosenStation(ids: seq<string>, choice: string): (r: Result<string, Failure>)
    ensures r.Ok? <==> choice in DisplayNames(ids)
    ensures r.Err? ==> r.error == OtherFailure
    ensures r.Ok? ==> exists k :: 0 <= k < |ids| && ids[k] == r.value && CleanStationName(ids[k]) == choice
                                  && forall j :: 0 <= j < k ==> CleanStationName(ids[j]) != choice
  {
    var names := DisplayNames(ids);
    match FirstIndexOf(names, choice)
    case None => Err(OtherFailure)
    case Some(k) => Ok(ids[k])
  }

  /** How `_execute_workflow` ends. */
  datatype Outcome =
    | EmptyCatalog
    | NoCity
    | NoStations
    | NoStation
    | NoData
    | Shown(stationId: string, data: Table)
    | Failed(failure: Failure)

  /**
   * `_execute_workflow`: five early returns (empty catalog, no city, no
   * station ids, no station, no data), then the chosen station's data is
   * shown. Errors from the service reach `run` as failures.
   */
  function Workflow(catalog: Result<Table, TableError>, cities: Result<seq<string>, TableError>,
                    chooseCity: seq<string> -> Option<string>,
                    stationIds: string -> Result<seq<string>, TableError>,
                    chooseStation: seq<string> -> Option<string>,
                    stationData: string -> Result<Table, TableError>): (o: Outcome)
    ensures catalog.Err? ==> o == Failed(FailureOf(catalog.error))
    ensures catalog.Ok? && IsEmpty(catalog.value) ==> o == EmptyCatalog
    // past a non-empty catalog, each step either ends the pass with its own outcome or leads to the next
    ensures catalog.Ok? && !IsEmpty(catalog.value) ==>
              if cities.Err? then o == Failed(FailureOf(cities.error))
              else if !Chosen(chooseCity(cities.value)) then o == NoCity
              else
                var ids := stationIds(chooseCity(cities.value).value);
                if ids.Err? then o == Failed(FailureOf(ids.error))
                else if ids.value == [] then o == NoStations
                else
                  var pick := chooseStation(DisplayNames(ids.value));
                  if !Chosen(pick) then o == NoStation
                  else if pick.value !in DisplayNames(ids.value) then o == Failed(OtherFailure)
                  else
                    // the station shown is the first one whose display name was picked
                    var id := ChosenStation(ids.value, pick.value).value;
                    && (stationData(id).Err? ==> o == Failed(FailureOf(stationData(id).error)))
                    && (stationData(id).Ok? && IsEmpty(stationData(id).value) ==> o == NoData)
                    && (stationData(id).Ok? && !IsEmpty(stationData(id).value) ==> o == Shown(id, stationData(id).value))
    // the data shown is that of a station of the chosen city whose display name the user picked, and is not empty
    ensures o.Shown? ==>
              && catalog.Ok? && !IsEmpty(catalog.value)
              && cities.Ok? && Chosen(chooseCity(cities.value))
              && stationIds(chooseCity(cities.value).value).Ok?
              && o.stationId in stationIds(chooseCity(cities.value).value).value
              && Chosen(chooseStation(DisplayNames(stationIds(chooseCity(cities.value).value).value)))
              && CleanStationName(o.stationId) == chooseStation(DisplayNames(stationIds(chooseCity(cities.value).value).value)).value
              && stationData(o.stationId) == Ok(o.data) && !IsEmpty(o.data)
  {
    match catalog
    case Err(e) => Failed(FailureOf(e))
    case Ok(table) =>
      if IsEmpty(table) then EmptyCatalog
      else
        match cities
        case Err(e) => Failed(FailureOf(e))
        case Ok(names) =>
          var city := chooseCity(names);
          if !Chosen(city) then NoCity
          else
            match stationIds(city.value)
            case Err(e) => Failed(FailureOf(e))
            case Ok(ids) =>
              if ids == [] then NoStations
              else
                var pick := chooseStation(DisplayNames(ids));
                if !Chosen(pick) then NoStation
                else
                  match ChosenStation(ids, pick.value)
                  case Err(f) => Failed(f)
                  case Ok(id) =>
                    match stationData(id)
                    case Err(e) => Failed(FailureOf(e))
                    case Ok(data) => if IsEmpty(data) then NoData else Shown(id, data)
  }

  /** `run`: the header shown for a workflow that failed, nothing otherwise. */
  function Run(o: Outcome): (header: Option<string>)
    ensures header.Some? <==> o.Failed?
    ensures o.Failed? && o.failure.MissingColumnFailure? ==> header == Some("ERREUR DE CONFIGURATION")
  {
    if o.Failed? then Some(ErrorHeader(o.failure)) else None
  }
}
