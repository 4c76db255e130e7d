# Weather station browser — a Dafny model of its core

The application loads the catalogue of weather stations of a city open-data
portal and lets the user choose a city, then a station, and browse that
station's latest readings. This project models the parts of it that hold
state or make decisions, and proves what they promise:

- the doubly-linked station navigator and its cursor (`navigator.dfy`);
- the factory that sorts stations by their identifier without the numeric
  prefix and fills a navigator (`factory.dfy`);
- the table filters (keyword, city, meteo, column projection) and their
  composition, over a model of a pandas table as columns plus rows of
  optional string cells (`tables.dfy`, `filters.dfy`);
- the extractor that lists the distinct values of a column in ascending
  order (`extractor.dfy`);
- the FIFO `Queue` and the composite filter that drains and refills it
  (`queue.dfy`);
- the `Configuration` singleton key/value store (`configuration.dfy`);
- the data service with its write-once catalogue cache (`service.dfy`);
- both orchestrators: the station-name cleaning and the error headers they
  share (`presentation.dfy`), the browsing orchestrator of `meteo/` with its
  display list, cursor realignment, navigation menu and restart loop
  (`orchestrator.dfy`), and the earlier loop-free orchestrator
  (`legacy_orchestrator.dfy`);
- the string helpers they rely on: ASCII case folding, literal substring
  search, the `^\d+-` prefix removal, `str.capitalize()` and Python's string
  order (`text.dfy`), plus `Option`/`Result` (`wrappers.dfy`).

State that the source mutates in place is a class with fields: the
navigator's nodes and their `next`/`prev` links, the queue's item list, the
configuration dictionary and the service's cache. Every method that changes
state is proved against a function of the old state. A ghost `Nodes`
sequence and a ghost `Cursor` tie the linked nodes to the stations they hold.
A ghost counter `catalogLoads` counts the catalogue loads. Pure code is made
of functions, and the lemmas beside them state the promised properties.

## Model

| member | source | states |
|---|---|---|
| Navigator.StationNode.constructor | meteo/models/station_node.py:12-21 | a new node holds its station and has no neighbours |
| Navigator.ChainDistinct | services/station_linked_list.py:109-118 | in a chain of linked nodes whose last node has no successor, no node occurs twice, so the position walk stops at the current node's index |
| Navigator.LinkAfter | services/station_linked_list.py:37-38 | linking a new node after the tail of a chain gives a chain one node longer; the old tail and the new node point at each other, and their other links are unchanged |
| Navigator.StationLinkedList.CurrentLinks | services/station_linked_list.py:87-96 | the current node's `next` is the node after the cursor, or null at the last one; its `prev` is the node before, or null at the first one |
| Navigator.StationLinkedList.constructor | services/station_linked_list.py:14-19 | a new list has no stations and position 0 |
| Navigator.StationLinkedList.AddStation | services/station_linked_list.py:21-41 | the station is appended at the tail; the first station added becomes current (position 1), later adds leave the cursor where it was |
| Navigator.StationLinkedList.Next | services/station_linked_list.py:43-54 | before the last station: moves one forward and returns the new current station; at the last one, or on an empty list: returns none and moves nothing; the stations never change |
| Navigator.StationLinkedList.Previous | services/station_linked_list.py:56-67 | past the first station: moves one back and returns the new current station; at the first one, or on an empty list: returns none and moves nothing; the stations never change |
| Navigator.StationLinkedList.GetCurrent | services/station_linked_list.py:69-78 | none exactly when the list is empty; otherwise the station at index position - 1, with 1 <= position <= total |
| Navigator.StationLinkedList.HasNext | services/station_linked_list.py:80-87 | true exactly when the list is non-empty and position < total |
| Navigator.StationLinkedList.HasPrevious | services/station_linked_list.py:89-96 | true exactly when the list is non-empty and position > 1 |
| Navigator.StationLinkedList.Reset | services/station_linked_list.py:98-100 | the cursor goes to the first station: position 1, or 0 on an empty list; the stations never change |
| Navigator.StationLinkedList.GetPosition | services/station_linked_list.py:102-118 | the walk from the head returns the 1-based index of the current node, which lies in [1, total] when the list is non-empty |
| Navigator.StationLinkedList.GetTotal | services/station_linked_list.py:120-127 | the number of stations held |
| NavigatorFactory.SortKey | factories/station_navigator_factory.py:26-29 | the key is no longer than the id and holds no upper-case letter |
| NavigatorFactory.SortKeyOfPrefixed | factories/station_navigator_factory.py:26-29 | the key of an id `<digits>-<rest>` is `rest` lower-cased (`42-meteo-blagnac` gives `meteo-blagnac`) |
| NavigatorFactory.InsertSorted | factories/station_navigator_factory.py:32 | one insertion step of the stable sort keeps the sequence ordered by key |
| NavigatorFactory.InsertStable | factories/station_navigator_factory.py:32 | one insertion step puts the new element after every element with the same key |
| NavigatorFactory.SortBySorted | factories/station_navigator_factory.py:32 | `sorted(..., key=...)` gives a sequence whose keys never decrease |
| NavigatorFactory.SortByPermutes | factories/station_navigator_factory.py:32 | the sorted sequence is a permutation of the input |
| NavigatorFactory.SortByStable | factories/station_navigator_factory.py:32 | stations with equal keys keep their input order |
| NavigatorFactory.AddAll | factories/station_navigator_factory.py:35-39 | one `add_station` per station, in order, gives a navigator holding exactly those stations, on the first one (or empty, position 0) |
| NavigatorFactory.CreateFromStationList | factories/station_navigator_factory.py:15-41 | the navigator holds the input stations sorted by key: non-decreasing keys, a permutation of the input, stable, total equal to the input length, positioned on the first station (position 1) or empty with position 0 |
| NavigatorFactory.FactoryOrderExample | factories/station_navigator_factory.py:26-32 | stations `<d1>-zoo`, `<d2>-apple`, `<d3>-mango`, whatever the digit prefixes, are ordered apple, mango, zoo |
| Text.StripNumericPrefixShape | factories/station_navigator_factory.py:29 | `re.sub(r'^\d+-', '', s)` either leaves `s` alone or removes a non-empty run of digits followed by a dash; what remains is a suffix of `s` |
| Text.StripNumericPrefixRemoves | factories/station_navigator_factory.py:29 | every prefix of digits and a dash is removed, and nothing more |
| Text.NoDigitPrefixUnchanged | factories/station_navigator_factory.py:29 | an id that does not start with a digit is left unchanged |
| Text.Lower | factories/station_navigator_factory.py:29 | `.lower()`: same length, each ASCII upper-case letter mapped to its lower case, every other character kept |
| Text.ReplaceDashes | meteo/orchestrator/weather_station_orchestrator.py:82 | `.replace('-', ' ')`: same length, each dash becomes a space, every other character kept |
| Text.Capitalize | meteo/orchestrator/weather_station_orchestrator.py:82 | `.capitalize()`: same length, first character upper-cased, the rest lower-cased |
| Tables.Where | meteo/filters/keyword_filter.py:57 | `df[mask]`: the rows that satisfy the mask, in order, as a subsequence of the input; each kept row occurs as many times as in the input, duplicates included, and each dropped row not at all |
| Tables.NonNullValues | extractors/data_extractor.py:47 | `dropna().tolist()`: the values of the column's non-null cells, no more rows than the input |
| Tables.NonNullIndices | extractors/data_extractor.py:47 | the indices of the rows whose cell is not null: strictly ascending, each such a row, and every non-null row among them |
| Tables.NonNullValuesInRowOrder | extractors/data_extractor.py:47 | `dropna().tolist()` has one value per non-null row, in row order and with duplicates kept: its j-th value is the cell of the j-th non-null row |
| Tables.NonNullValuesAppend | extractors/data_extractor.py:47 | the values of two row blocks placed one after the other are the first block's values followed by the second's |
| Filters.KeywordFilter | meteo/filters/keyword_filter.py:27-57 | a missing column is a `KeyError`; otherwise all columns are kept and an order-preserving subsequence of the rows: exactly the rows whose non-null cell contains the include keyword, case-insensitively, and, when the exclude keyword is neither None nor empty, does not contain it; each kept row as many times as in the input |
| Filters.CityFilter | filters/city_filter.py:22-49 | a missing column is a `KeyError`; otherwise a row is kept exactly when its non-null cell contains the city name, case-insensitively, as many times as it occurs; columns kept, row order kept |
| Filters.MeteoFilter | filters/meteo_filter.py:8-13 | no `datasetid` column is a `KeyError`; otherwise a row is kept exactly when its non-null `datasetid` contains "meteo" and not "archive", case-insensitively, as many times as it occurs; columns kept, row order kept |
| Filters.MeteoFilterIsKeywordFilter | filters/meteo_filter.py:8-13 | the meteo filter is the keyword filter on `datasetid` including "meteo" and excluding "archive" |
| Filters.CityFilterIsKeywordFilter | filters/city_filter.py:43-47 | the city filter is the keyword filter with no exclude keyword |
| Filters.ExistingColumns | filters/column_filter.py:17 | the requested columns that exist, in requested order; none when none exists |
| Filters.ProjectRow | filters/column_filter.py:22 | a projected row carries exactly the kept columns' cells, unchanged |
| Filters.SelectColumns | filters/column_filter.py:12-22 | an empty table comes back unchanged; otherwise the columns are the requested ones that exist, in requested order (possibly none, without error), the row count is kept and each kept cell is unchanged |
| Filters.ColumnFilter | filters/column_filter.py:9-22 | the projection on the four fixed columns `heure_de_paris`, `temperature_en_degre_c`, `humidite`, `pression` |
| Filters.CompositeFilter | filters/composite_filter.py:21-40 | the loop that rebinds the running table returns the left fold of the filters over the input, and the first error stops it |
| Filters.ApplyInOrderAppend | filters/composite_filter.py:37-38 | composing two filter lists is running the first and feeding its result to the second |
| Filters.ApplyInOrderSingle | filters/composite_filter.py:37-40 | a composite of one filter behaves as that filter |
| Filters.RowFiltersOnlyDropRows | filters/composite_filter.py:37-38 | a chain of keyword, city and meteo filters keeps the columns and returns an order-preserving subsequence of the rows |
| Extractor.InsertUnique | extractors/data_extractor.py:66 | adding a value to a strictly ascending list keeps it strictly ascending and adds exactly that value |
| Extractor.SortedDistinct | extractors/data_extractor.py:66 | `drop_duplicates().sort_values()`: strictly ascending, with exactly the input's values |
| Extractor.ExtractUniqueSortedValues | extractors/data_extractor.py:49-66 | a missing column is a `KeyError`; otherwise the result is strictly ascending (sorted, no duplicates) and holds exactly the values of the column's non-null cells |
| Extractor.GetUniqueCities | extractors/data_extractor.py:25-30 | the extraction over the configured city column |
| Extractor.GetUniqueStations | extractors/data_extractor.py:32-37 | the extraction over the configured station-id column |
| Extractor.GetStationInfos | extractors/data_extractor.py:39-47 | an empty table or an absent timestamp column gives the empty list, without error; otherwise one value per row with a timestamp, in row order, duplicates kept: the j-th value is the timestamp of the j-th such row |
| Extractor.StrictlyAscendingUnique | extractors/data_extractor.py:66 | two strictly ascending lists with the same values are equal, so the extraction is fixed by the set of values |
| Extractor.UniqueSortedExample | extractors/data_extractor.py:66 | a column holding b, null, a, b with a < b gives [a, b] |
| FilterQueue.Queue.constructor | meteo/filters/queue_structure.py:10-19 | a new queue is empty, size 0 |
| FilterQueue.Queue.Enqueue | meteo/filters/queue_structure.py:21-32 | the item goes to the back; size grows by one |
| FilterQueue.Queue.Dequeue | meteo/filters/queue_structure.py:34-52 | on an empty queue: the `IndexError`, nothing changes; otherwise returns the front item and removes only it |
| FilterQueue.Queue.Peek | meteo/filters/queue_structure.py:54-63 | the front item without removing it, none when empty |
| FilterQueue.Queue.IsEmpty | meteo/filters/queue_structure.py:65-72 | true exactly when size is 0 |
| FilterQueue.Queue.Size | meteo/filters/queue_structure.py:74-81 | the item count, 0 exactly for the empty queue |
| FilterQueue.Queue.Len | meteo/filters/queue_structure.py:98-105 | `len(q)` equals `size()` |
| FilterQueue.Queue.Clear | meteo/filters/queue_structure.py:83-87 | the queue is empty afterwards |
| FilterQueue.FifoExample | meteo/filters/queue_structure.py:34-52 | enqueue a then b: dequeue gives a, then b, then the empty-queue error |
| Settings.Configuration.constructor | meteo/models/configuration.py:16-18 | the store starts empty: every key reads as None |
| Settings.Configuration.SetValue | meteo/models/configuration.py:21-29 | the key now maps to the value, overwriting any earlier one; every other key is unchanged |
| Settings.Configuration.GetValue | meteo/models/configuration.py:31-41 | the stored value for a key that was set, None for a key never set |
| Settings.ConfigurationClass.constructor | meteo/models/configuration.py:9 | no instance exists yet |
| Settings.ConfigurationClass.New | meteo/models/configuration.py:11-19 | the first construction creates an instance with an empty store; every later one returns that same instance with its store as it was |
| Settings.SharedInstanceExample | meteo/models/configuration.py:11-41 | a value set through one construction is read through another, which is the same object; an unset key reads as None |
| DataService.MakeStations | services/weather_data_service.py:76 | one station per id, same order, each carrying the queried city |
| DataService.WeatherDataService.constructor | services/weather_data_service.py:17-45 | the dependencies are stored and the cache starts unset, with no load yet |
| DataService.WeatherDataService.GetProcessedCatalog | services/weather_data_service.py:47-60 | the result is the filtered raw catalogue, or the empty table when the raw catalogue is empty; the loader runs only when no catalogue is cached, so at most once while the filter succeeds; a cached catalogue is returned as it is |
| DataService.WeatherDataService.GetCities | services/weather_data_service.py:62-65 | the extractor's unique cities of the processed catalogue, strictly ascending; no reload when cached |
| DataService.WeatherDataService.GetStationsForCity | services/weather_data_service.py:67-79 | errors from the catalogue, the city filter or the extractor come out as they are; otherwise a fresh navigator holding one station per unique station id of the city-filtered catalogue, each with the queried city, sorted by the factory key, total equal to the number of ids, on the first station |
| DataService.WeatherDataService.GetStationData | services/weather_data_service.py:81-90 | an empty load gives the empty table, anything else goes through the column filter; with the column filter the result has only the four kept columns and as many rows as the load |
| Presentation.CleanStationNameShape | meteo/orchestrator/weather_station_orchestrator.py:77-83 | ids containing `stations-meteo-en-place` get the fixed label; any other name is as long as the id without its prefix, does not start with a lower-case letter, has no upper-case letter after the first, and has no dash |
| Presentation.CleanStationNameOfPrefixed | orchestrator/weather_station_orchestrator.py:78-88 | the id `<digits>-<rest>` is shown as `rest` with spaces for dashes, capitalized |
| Presentation.DisplayNames | orchestrator/weather_station_orchestrator.py:91 | one display name per id, index-aligned with the ids |
| Presentation.FirstIndexOf | orchestrator/weather_station_orchestrator.py:105 | `list.index`: the first index holding the value, or the error exactly when the value is absent |
| Presentation.ErrorHeader | meteo/orchestrator/weather_station_orchestrator.py:30-43 | a `KeyError` is shown under "ERREUR DE CONFIGURATION" |
| Presentation.ErrorHeadersDistinct | meteo/orchestrator/weather_station_orchestrator.py:30-43 | connection errors, missing columns and any other error get three different headers, one per kind |
| Orchestrator.ListingFromStart | meteo/orchestrator/weather_station_orchestrator.py:86-94 | started on the first station, the i-th name collected is the i-th station's |
| Orchestrator.BuildDisplayList | meteo/orchestrator/weather_station_orchestrator.py:86-94 | `get_total()` rounds, each collecting the current station's name and then moving on when there is a next one, for any name cleaning |
| Orchestrator.DisplayStep | meteo/orchestrator/weather_station_orchestrator.py:89-94 | one round collects the current station's name and moves one forward unless on the last station |
| Orchestrator.Realign | meteo/orchestrator/weather_station_orchestrator.py:111-114 | `reset()` then k calls of `next()` put the navigator at position k + 1, or on the last station when k is past the end |
| Orchestrator.Menu | meteo/orchestrator/weather_station_orchestrator.py:142-148 | "previous" is offered exactly when there is a previous station and "next" exactly when there is a next one; "another station" and "quit" always come last, in that order; no option is offered twice |
| Orchestrator.Dispatch | meteo/orchestrator/weather_station_orchestrator.py:155-165 | no answer stops the loop; an answer that is none of the four labels asks again, and only such an answer does |
| Orchestrator.DispatchLabel | meteo/orchestrator/weather_station_orchestrator.py:155-165 | each offered label dispatches to its own action: previous, next, restart, stop |
| Orchestrator.Step | meteo/orchestrator/weather_station_orchestrator.py:155-158 | previous and next move the cursor by one and stay put at the ends; any other answer leaves it |
| Orchestrator.StepNextThenPrevious | meteo/orchestrator/weather_station_orchestrator.py:155-158 | next then previous returns to the same station, except from the last one |
| Orchestrator.Replay | meteo/orchestrator/weather_station_orchestrator.py:117-165 | the browse loop ends with no current station exactly when there is none, and always on a valid station; when it ends on a load error, that is the error `get_station_data` raised for the station it stopped on |
| Orchestrator.ColumnFilterNeverFailsBrowsing | meteo/orchestrator/weather_station_orchestrator.py:132 | with the application's column filter, `get_station_data` never raises, so browsing never ends on a load error |
| Orchestrator.Act | meteo/orchestrator/weather_station_orchestrator.py:155-158 | the navigator moves as `Step` says |
| Orchestrator.Prompt | meteo/orchestrator/weather_station_orchestrator.py:142-153 | the user is asked with the labels of the menu for the current position |
| Orchestrator.BrowseStep | meteo/orchestrator/weather_station_orchestrator.py:141-158 | one pass of the loop: prompt with the current menu, then move as answered |
| Orchestrator.Browse | meteo/orchestrator/weather_station_orchestrator.py:117-165 | the `while True` loop, which loads the current station's data before each prompt, ends as `Replay` of the answers and the loader says, on the station it says |
| Orchestrator.ExecuteWorkflow | meteo/orchestrator/weather_station_orchestrator.py:45-165 | one pass stops on a catalogue error, an empty catalogue, no city or a city without stations; otherwise the user picks a display name and browsing starts on the first station with that name; a station-data error in the loop ends the pass as a failure; a cached catalogue is not reloaded |
| Orchestrator.ForCity | meteo/orchestrator/weather_station_orchestrator.py:70-74 | from the station lookup on: a navigator with total 0 stops the pass |
| Orchestrator.ChooseAndBrowse | meteo/orchestrator/weather_station_orchestrator.py:85-114 | the names offered are the display names of the navigator's stations in navigator order, and browsing starts from the one chosen |
| Orchestrator.PickAndBrowse | meteo/orchestrator/weather_station_orchestrator.py:97-117 | no name chosen stops the pass; otherwise the navigator is put on the first index with that name and the browse loop runs; a load error in it makes the pass a failure |
| Orchestrator.Run | meteo/orchestrator/weather_station_orchestrator.py:25-43 | restarts run the workflow again, a failure ends on its header, and the catalogue is loaded at most once in all while its filter succeeds |
| Orchestrator.BrokenCatalogShowsConfigurationError | meteo/orchestrator/weather_station_orchestrator.py:37-40 | a catalogue that fails on a missing column ends the run on "ERREUR DE CONFIGURATION" |
| Orchestrator.BrowsingNeedsEverySelection | meteo/orchestrator/weather_station_orchestrator.py:52-74 | browsing is reached only with a non-empty catalogue, a chosen city with at least one station, and a chosen station name from the list offered; it always has a current station and has not ended on a load error |
| LegacyOrchestrator.ChosenStation | orchestrator/weather_station_orchestrator.py:104-106 | a choice is found exactly when it is one of the display names; the id returned is the first whose display name is the choice; any other choice is the `ValueError` of `index` |
| LegacyOrchestrator.Workflow | orchestrator/weather_station_orchestrator.py:45-119 | each exit in order: a catalogue error fails and an empty catalogue stops; then a city-list error fails, no city chosen stops, a station-lookup error fails, no station ids stops, no name chosen stops, a name not on the list fails; otherwise the first station whose display name was picked is loaded: a load error fails, empty data stops, and non-empty data is shown for that station |
| LegacyOrchestrator.Run | orchestrator/weather_station_orchestrator.py:25-43 | a header is shown exactly when the workflow failed, the configuration header for a missing column |

The members of the queue-based `CompositeFilter`
(`météo/filters/composite_filter.py`):

- `FilterQueue.ApplyInOrderIsFold` (météo/filters/composite_filter.py:60-65): dequeuing and applying the filters one at a time is the same left fold as the list-based composite.
- `FilterQueue.QueueCompositeFilter.constructor` (météo/filters/composite_filter.py:14-26): a fresh queue holding the given filters in order.
- `FilterQueue.QueueCompositeFilter.AddFilter` (météo/filters/composite_filter.py:28-41): the filter is queued after all the others.
- `FilterQueue.QueueCompositeFilter.Filter` (météo/filters/composite_filter.py:43-72): the result is the left fold of the queued filters in FIFO order; on success the queue holds the same filters afterwards; after an error it holds only those after the failing one.
- `FilterQueue.QueueCompositeFilter.FilterKeepingFilters` (météo/filters/composite_filter.py:43-72): the same result as `filter`, and the queue holds the same filters in the same order afterwards, error or not.
- `FilterQueue.QueueCompositeFilter.Drain` (météo/filters/composite_filter.py:56-65): the dequeue-and-apply loop computes the fold and takes out every filter up to the first failing one; the filters taken plus those left are the original queue.
- `FilterQueue.QueueCompositeFilter.Refill` (météo/filters/composite_filter.py:69-70): the taken filters are queued again in the order they came out.
- `FilterQueue.QueueCompositeFilter.IsEmpty` (météo/filters/composite_filter.py:74-81): true exactly when no filter is queued.
- `FilterQueue.QueueCompositeFilter.Size` (météo/filters/composite_filter.py:83-90): the number of queued filters.
- `FilterQueue.QueueCompositeFilter.ClearFilters` (météo/filters/composite_filter.py:92-96): no filter is left.
- `FilterQueue.FailingFilterLosesFilters` (météo/filters/composite_filter.py:60-70): a keyword filter on a missing column followed by the meteo filter: `filter` fails with that column's `KeyError`, and the queue is left holding only the meteo filter.

## Findings

| source | as written | input that shows it | evidently intended | confidence | as-written member | corrected member |
|---|---|---|---|---|---|---|
| météo/filters/composite_filter.py:60-70 | when an inner filter raises, the exception leaves the drain loop before the refill loop, so the filters already dequeued are lost, the failing one included | a composite of a keyword filter on a column the table lacks, then the meteo filter: after the `KeyError` only the meteo filter is queued | the docstring (lines 47-48) says the filters are only taken out for a while and put back so the composite can be reused; it should hold the same filters in the same order afterwards, error or not | medium; not executed | FilterQueue.QueueCompositeFilter.Filter, FilterQueue.FailingFilterLosesFilters | FilterQueue.QueueCompositeFilter.FilterKeepingFilters |

## Left out

- Network and file I/O: the catalogue loader, the station loader and the configuration file reader. Their results are parameters: the raw catalogue table, and a function from station id to table. Each load is deterministic.
- Console rendering and prompting. The user's answers are given as functions of the options offered: a city picker, a station picker, and one answer per navigation prompt. Messages, headers and dataframe display are not modelled.
- `main.py` and `meteo/__main__.py`: dependency wiring only.
- The selection services: pass-throughs to the UI prompt.
- The abstract interfaces, the command objects and the logging filter decorators: no behaviour of their own.
- `__str__`/`__repr__` of the navigator, the node, the queue and the composite filter.
- Pandas `str.contains` matches a regular expression; keywords here are matched as literal substrings. Case folding covers ASCII letters only.
- `Station` in `models/station.py` names its second field `creator`; the data service fills it with the city name, which is the `city` field here.
- `add_filter`'s `TypeError` for an object that is not a filter: the Dafny types exclude it.
- The meteo orchestrator's restart re-enters `_execute_workflow` recursively. Here it is a loop over a given sequence of user rounds.
- Orchestrator.Run: `OutOfRounds` ends a run whose rounds are used up while the user keeps restarting. It is an artifact of giving the rounds as a finite sequence.
- Orchestrator.Browse: `OutOfAnswers` ends a browse loop whose answers are used up. It is an artifact of giving the answers as a finite sequence.
- Orchestrator.Browse: the data loaded for a station is shown only, so the model keeps its error and drops the table. A successful load does not steer the loop.
- Orchestrator.BuildDisplayList: the name cleaning is a parameter, instantiated with `CleanStationName`. The loop is also modelled as starting from whatever station is current. Called from the workflow, that is the first station.
- A connection failure cannot arise in the model, because the loaders are not modelled. `Failure` still has its case and `ErrorHeader` its header.
- DataService.WeatherDataService.GetProcessedCatalog: when the catalogue filter raises, Python leaves the cache unset, and so does the model. A later call would load again. "Loaded at most once" is therefore proved only while the filter succeeds; a failed load ends `run` anyway.
- The earlier orchestrator treats `get_stations_for_city` as returning a list of ids, while this repository's service returns a navigator. LegacyOrchestrator.Workflow takes the station lookup as a function returning ids.
- Equal display names: `list.index` picks the first station with the chosen name. Both orchestrators are modelled that way, so a later station with the same name cannot be chosen.
- Configuration values are of any one type `V` rather than Python's untyped values.
- Settings.Configuration.GetValue: a key stored with the value None reads as None in Python, the same as a key never set. The model keeps the two apart: such a key reads as `Some` of the stored value.
- Text.StripNumericPrefix: `\d` is taken as the ASCII digits `0`-`9`. Python 3's `\d` matches every Unicode decimal digit, so an id such as `٤٢-meteo` loses its prefix in Python but is left unchanged here.
- Filters.KeywordFilter, Filters.CityFilter, Filters.MeteoFilter: cells are always strings or null. In pandas, `.str.contains` on a column that is not of string type raises `AttributeError`; an all-empty CSV column read as float64 is an example. `run` then shows the generic error header. The model returns the rows that match instead.
- Python's `list.pop(0)` and `append` cost, and the object identity of copied tables (`df.copy()`): the model works on values.
