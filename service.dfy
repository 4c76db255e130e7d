/**
 * `WeatherDataService`: the facade over the loaders, filters, extractor and
 * navigator factory. The two loaders do network I/O, so the service is
 * given what they return: `catalogData` for the catalog loader and
 * `stationData(id)` for the station loader. The processed catalog is cached
 * in `processedCatalog`; the ghost counter `catalogLoads` counts calls of
 * the catalog loader.
 */
module DataService {
  import opened Wrappers
  import opened Tables
  import opened Filters
  import opened Extractor
  import opened Navigator
  import opened NavigatorFactory

  /** What `get_processed_catalog` computes from a raw catalog: an empty raw catalog skips the filter. */
  function ProcessCatalog(raw: Table, catalogFilter: Filter): Result<Table, TableError>
  {
    if IsEmpty(raw) then Ok(EmptyTable) else Apply(catalogFilter, raw)
  }

  /** `[Station(station_id, city_name) for station_id in station_ids]`. */
  function MakeStations(ids: seq<string>, city: string): (r: seq<Station>)
    ensures |r| == |ids|
    ensures forall i :: 0 <= i < |ids| ==> r[i] == Station(ids[i], city)
  {
    seq(|ids|, i requires 0 <= i < |ids| => Station(ids[i], city))
  }

  class WeatherDataService {
    const catalogData: Table
    const stationData: string -> Table
    const catalogFilter: Filter
    const cityFilterFactory: string -> Filter
    const columnFilter: Filter
    const extractor: DataExtractor

    /** `processed_catalog`: `None` until a load succeeds. */
    var processedCatalog: Option<Table>
    ghost var catalogLoads: nat

    /**
     * The cache holds what a load computes, and the catalog loader has been
     * called once for the value in the cache plus once per failed load; a
     * load fails only when the catalog filter does.
     */
    ghost predicate Valid()
      reads this
    {
      && (processedCatalog.Some? ==> ProcessCatalog(catalogData, catalogFilter) == Ok(processedCatalog.value))
      && (ProcessCatalog(catalogData, catalogFilter).Ok? ==> catalogLoads == if processedCatalog.Some? then 1 else 0)
    }

    /** `__init__`: the dependencies, and no cached catalog. */
    constructor (catalogData: Table, stationData: string -> Table, catalogFilter: Filter,
                 cityFilterFactory: string -> Filter, columnFilter: Filter, extractor: DataExtractor)
      ensures this.catalogData == catalogData && this.stationData == stationData
      ensures this.catalogFilter == catalogFilter && this.cityFilterFactory == cityFilterFactory
      ensures this.columnFilter == columnFilter && this.extractor == extractor
      ensures processedCatalog == None && catalogLoads == 0 && Valid()
    {
      this.catalogData := catalogData;
      this.stationData := stationData;
      this.catalogFilter := catalogFilter;
      this.cityFilterFactory := cityFilterFactory;
      this.columnFilter := columnFilter;
      this.extractor := extractor;
      processedCatalog := None;
      catalogLoads := 0;
    }

    /**
     * `get_processed_catalog`: with a cached catalog, returns it without
     * calling the loader; otherwise calls the loader once, filters the raw
     * catalog unless it is empty, and caches the result. A filter error
     * propagates and leaves the cache unset.
     */
    method GetProcessedCatalog() returns (r: Result<Table, TableError>)
      requires Valid()
      modifies this
      ensures Valid()
      ensures r == ProcessCatalog(catalogData, catalogFilter)
      ensures old(processedCatalog).Some? ==> catalogLoads == old(catalogLoads) && processedCatalog == old(processedCatalog)
      ensures old(processedCatalog).None? ==> catalogLoads == old(catalogLoads) + 1
      // the loader runs at most once as long as the catalog filter succeeds
      ensures ProcessCatalog(catalogData, catalogFilter).Ok? ==> catalogLoads == 1
      ensures r.Ok? ==> processedCatalog == Some(r.value)
      ensures r.Err? ==> processedCatalog == None
      ensures IsEmpty(catalogData) ==> r == Ok(EmptyTable)
    {
      if processedCatalog.None? {
        var raw := catalogData;
        catalogLoads := catalogLoads + 1;
        if IsEmpty(raw) {
          processedCatalog := Some(EmptyTable);
        } else {
          var filtered := Apply(catalogFilter, raw);
          if filtered.Err? {
            return Err(filtered.error);
          }
          processedCatalog := Some(filtered.value);
        }
      }
      r := Ok(processedCatalog.value);
    }

    /** `get_cities`: the extractor's distinct cities of the processed catalog, in ascending order. */
    method GetCities() returns (r: Result<seq<string>, TableError>)
      requires Valid()
      modifies this
      ensures Valid()
      ensures r == match ProcessCatalog(catalogData, catalogFilter)
                  case Err(e) => Err(e)
                  case Ok(catalog) => GetUniqueCities(extractor, catalog)
      ensures r.Ok? ==> StrictlyAscending(r.value)
      ensures old(processedCatalog).Some? ==> catalogLoads == old(catalogLoads)
    {
      var catalog := GetProcessedCatalog();
      if catalog.Err? {
        return Err(catalog.error);
      }
      r := GetUniqueCities(extractor, catalog.value);
    }

    /** The station ids `get_stations_for_city` extracts for `city`. */
    ghost function StationIdsFor(city: string): Result<seq<string>, TableError>
    {
      match ProcessCatalog(catalogData, catalogFilter)
      case Err(e) => Err(e)
      case Ok(catalog) =>
        match Apply(cityFilterFactory(city), catalog)
        case Err(e) => Err(e)
        case Ok(cityCatalog) => GetUniqueStations(extractor, cityCatalog)
    }

    /**
     * `get_stations_for_city`: a navigator over one station per distinct id
     * of the city-filtered catalog, each carrying `city`, in the factory's
     * order, positioned on the first one.
     */
    method GetStationsForCity(city: string) returns (r: Result<StationLinkedList, TableError>)
      requires Valid()
      modifies this
      ensures Valid()
      ensures old(processedCatalog).Some? ==> catalogLoads == old(catalogLoads)
      ensures r.Err? <==> StationIdsFor(city).Err?
      ensures r.Err? ==> r.error == StationIdsFor(city).error
      ensures r.Ok? ==> fresh(r.value) && r.value.Valid()
      ensures r.Ok? ==> r.value.Contents() == SortBy(MakeStations(StationIdsFor(city).value, city), SortKey)
      ensures r.Ok? ==> r.value.GetTotal() == |StationIdsFor(city).value|
      ensures r.Ok? ==> r.value.Position() == if StationIdsFor(city).value == [] then 0 else 1
      ensures r.Ok? ==> forall s :: s in r.value.Contents() ==> s.city == city && s.datasetId in StationIdsFor(city).value
      ensures r.Ok? ==> forall id :: id in StationIdsFor(city).value ==> Station(id, city) in r.value.Contents()
    {
      var catalog := GetProcessedCatalog();
      if catalog.Err? {
        return Err(catalog.error);
      }
      var cityCatalog := Apply(cityFilterFactory(city), catalog.value);
      if cityCatalog.Err? {
        return Err(cityCatalog.error);
      }
      var ids := GetUniqueStations(extractor, cityCatalog.value);
      if ids.Err? {
        return Err(ids.error);
      }
      var stations := MakeStations(ids.value, city);
      var nav := CreateFromStationList(stations);
      forall s | s in nav.Contents() ensures s.city == city && s.datasetId in ids.value {
        assert s in multiset(nav.Contents());
        assert s in stations;
      }
      forall id | id in ids.value ensures Station(id, city) in nav.Contents() {
        var i :| 0 <= i < |ids.value| && ids.value[i] == id;
        assert stations[i] == Station(id, city);
        assert Station(id, city) in multiset(stations);
      }
      r := Ok(nav);
    }

    /**
     * `get_station_data`: the station loader's table, through the column
     * filter unless it is empty, in which case an empty table.
     */
    function GetStationData(stationId: string): (r: Result<Table, TableError>)
      ensures IsEmpty(stationData(stationId)) ==> r == Ok(EmptyTable)
      ensures !IsEmpty(stationData(stationId)) ==> r == Apply(columnFilter, stationData(stationId))
      // with the application's `ColumnFilter`: never an error, only the wanted columns, every reading kept
      ensures columnFilter == Columns ==> r.Ok? && forall c :: c in r.value.columns ==> c in ColumnsToKeep
      ensures columnFilter == Columns && !IsEmpty(stationData(stationId)) ==> |r.value.rows| == |stationData(stationId).rows|
    {
      var raw := stationData(stationId);
      if IsEmpty(raw) then Ok(EmptyTable) else Apply(columnFilter, raw)
    }
  }
}
