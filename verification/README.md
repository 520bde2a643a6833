# SimpliRoute performance engine — a Dafny model of its routing core

SimpliRoute's engine takes a depot and a list of delivery stops and returns an
order in which to visit them. This project models the parts of the repository
that sit around the actual route search:

- **`Solver`** (`solver.dfy`) models the local VRP solver, the `LocalVRPSolver` class.
  - For an empty location list, `solve` returns at once and builds nothing.
  - The docstring of `solve` speaks of `'route'` and `'distance'` keys; the dict for an optimized route actually uses `route_indices` and `total_distance_km`, and the model's field names follow the code.
  - Otherwise it fills an N×N distance matrix with nested loops and hands the matrix to OR-Tools.
  - It reads vehicle 0's route by walking successor links from the start index to the end index. On the way it collects node indices and adds up arc costs in metres. After the loop it appends the end node (the depot again), converts the total to km and lists the coordinates of each visited node.
  - The great-circle distance is a parameter `dist`. The OR-Tools search is a parameter `search` from the matrix, the vehicle count and the depot to an optional `Routing`. A `Routing` holds the start index, `IsEnd`, the successor of each index, `IndexToNode` and the arc cost.
  - Termination of the walk is something OR-Tools guarantees, so the model takes it as a precondition. A ghost `walk` satisfies `IsChain`, and `ChainUnique` proves that such a walk is unique.
- **`Endpoints`** (`endpoints.dfy`) models the synchronous `/optimize` endpoint, which is a mock. The `result` dict it computes reverses the stops, lists their addresses and charges 1.5 km per stop; the depot is never read. That dict, which has no status, is saved to the audit log; the status `"success"` is only passed to the `OptimizationResponse(...)` call. `RouteResult` puts the dict's entries and that status together, and `LogEntry` is the part that is logged. As written, the endpoint then fails to build its response (see "## Findings"); `Respond` models how a call ends for a given set of required fields and response arguments.
- **`IndexText`** (`index_text.dfy`) covers route indices sent as text. The client reads them with JavaScript's `parseInt`: it skips leading whitespace, accepts a sign and a `0x` prefix, reads digits and gives `NaN` (modelled as `None`) when there are none. `Show` writes an index in decimal, and `ParseIntShow` proves that `parseInt` reads it back.
- **`App`** (`app.dfy`) models the React page state as the class `AppState`, with a field for each `useState` hook except `jsonInput`, plus the last poll answer react-query holds. The JSON text itself is not a field: `InputChanged` receives the outcome of parsing it as a parameter.
  - The stop list is built from the parsed JSON: the depot, if present, comes first, then the stops.
  - A successful submit resets the previous order and metrics.
  - Polling is enabled while a task id exists and no metrics have arrived. It repeats every 1000 ms until the answer says SUCCESS or FAILURE.
  - The last poll answer is kept. On SUCCESS the returned index strings are mapped back to addresses against the page's own stop list, and misses are dropped silently. The same effect runs again whenever the JSON edit yields a new stop list, so the old indices are then remapped against the edited list (`RemapAgainstEditedStops` shows an order losing its depot that way).
  - Lemmas tie this to the map view: when addresses are distinct, decimal indices remapped and then drawn trace exactly the route's node positions (`RemappedRoutePath`).
- **`MapView`** (`map_component.dfy`) models the map panel.
  - It builds an address→stop lookup in which a later stop overwrites an earlier one with the same address.
  - The red path is built by a loop over the optimized order that skips unknown addresses.
  - The map is centred on the first stop, or on Buenos Aires when there are no stops.
- **`Wrappers`** and **`Api`** hold `Option` and the client-side `Stop`.

## Model

| member | source | states |
|---|---|---|
| `Solver.SolveResult.Status` | src/core/solver.py:21-103 | the dict carries a `"status"` entry except for an empty location list: `"no_solution"` or `"optimized"` otherwise |
| `Solver.DistanceMatrix` | src/core/solver.py:109-120 | the matrix `_compute_distance_matrix` builds, defined entry by entry (properties in `DistanceMatrixShape`, `DistanceMatrixSymmetric`) |
| `Solver.WalkCost` | src/core/solver.py:86-96 | the sum of `GetArcCostForVehicle` over consecutive indices of the walk (its sign in `WalkCostNonNegative`) |
| `Solver.Nodes` | src/core/solver.py:88-100 | the `IndexToNode` of each routing index on the walk, in walk order: what the loop appends, with the end node appended last |
| `Solver.CoordinatesOf` | src/core/solver.py:106 | `[locations[i] for i in route_indices]`: the location of each route node |
| `Solver.LocalVRPSolver.constructor` | src/core/solver.py:12-14 | the solver keeps the vehicle count and the depot index it is given (1 and 0 by default) |
| `Solver.LocalVRPSolver.Solve` | src/core/solver.py:16-80 | an empty location list gives `route = []`, `distance = 0.0` and no status; if the search on the distance matrix finds no solution the result is `no_solution` with an empty route and 0.0; otherwise it is the extracted route, the walk's nodes and cost, with the coordinates of those nodes (under the keys `route_indices` and `total_distance_km` the code uses, not the `route` and `distance` its docstring names) |
| `Solver.LocalVRPSolver.ExtractSolution` | src/core/solver.py:82-107 | the route lists the node of every routing index from start to end in walk order, starts with the start node and ends with the end (depot) node; the distance is the sum of arc costs over consecutive pairs of the walk divided by 1000; `coordinates_ordered` has the route's length and entry k is `locations[route_indices[k]]` |
| `Solver.LocalVRPSolver.ComputeDistanceMatrix` | src/core/solver.py:109-120 | the nested loops produce exactly the matrix `DistanceMatrix(locations, dist)` |
| `Solver.DistanceMatrixShape` | src/core/solver.py:111-119 | the matrix has `len(locations)` rows of `len(locations)` entries each, 0.0 on the diagonal and `dist(locations[i], locations[j])` off it |
| `Solver.DistanceMatrixSymmetric` | src/core/solver.py:109-120 | a symmetric, non-negative distance function yields a symmetric, non-negative matrix |
| `Solver.ChainUnique` | src/core/solver.py:84-93 | the chain of successor links from the start index to the first end index is unique, so the walk the loop performs is determined by the solution |
| `Solver.WalkCostNonNegative` | src/core/solver.py:86-96 | with non-negative arc costs the accumulated route distance is non-negative |
| `Endpoints.Reverse` | src/api/endpoints.py:25 | the `[::-1]` slice, of the same length as its input |
| `Endpoints.AddressesOf` | src/api/endpoints.py:26 | the address of each stop, in order |
| `Endpoints.OptimizeRoute` | src/api/endpoints.py:25-51 | the result the endpoint computes: `optimized_order` has one entry per stop and entry i is the address of stop n-1-i; `input_stops_count` is the number of stops; the distance is exactly 1.5 km per stop, so non-negative and zero exactly for an empty stop list; the status passed to the response is "success" |
| `Endpoints.LogEntryOf` | src/api/endpoints.py:35-44 | the `result` dict passed to `save_log`: count, distance and order, no status |
| `Endpoints.ReverseAt` | src/api/endpoints.py:25 | the `[::-1]` slice keeps the length and puts element n-1-k at position k |
| `Endpoints.ReverseAll` | src/api/endpoints.py:25 | the same for all positions at once |
| `Endpoints.ReverseReverse` | src/api/endpoints.py:25 | reversing twice gives the original list back |
| `Endpoints.OptimizeRouteIgnoresDepot` | src/api/endpoints.py:14-40 | the result is the same whatever the request's depot is |
| `Endpoints.OptimizeRouteTwice` | src/api/endpoints.py:25-26 | submitting the stops in the returned order gives back the original addresses in their original order |
| `Endpoints.Respond` | src/api/endpoints.py:35-52 | the result is computed and logged; either way the logged entry has one address per stop in mirrored order, the stop count and 1.5 km per stop; the call returns the computed result exactly when the response arguments include every required field (`RESPONSE_FIELDS`, the fields of `OptimizationResponse`), and otherwise raises naming precisely the missing fields |
| `Endpoints.EndpointAsWrittenRaises` | src/api/endpoints.py:46-52 | with the arguments the endpoint passes, every call raises, the only missing field being `estimated_travel_time_minutes` |
| `Endpoints.EndpointIntendedReturns` | src/api/endpoints.py:46-52 | with the travel time added to those arguments, every call returns the computed result |
| `Endpoints.OptimizeRouteTwoStops` | tests/test_api.py:11-32 | for New York then Los Angeles, the response with every required field is returned with order ["Los Angeles", "New York"], status "success" and a positive distance |
| `IndexText.TrimStart` | src/frontend-react/src/App.tsx:126 | `parseInt` drops a prefix made only of whitespace, and what is left does not start with whitespace |
| `IndexText.DigitValue` | src/frontend-react/src/App.tsx:126 | a character accepted as a digit has a value below the radix |
| `IndexText.DigitPrefix` | src/frontend-react/src/App.tsx:126 | `parseInt` reads the longest prefix of digits: all of it are digits and the next character is not |
| `IndexText.ParseInt` | src/frontend-react/src/App.tsx:126 | `parseInt(s)`: empty or all-whitespace text is `NaN`, and a negative value needs a leading minus |
| `IndexText.DigitsValue` | src/frontend-react/src/App.tsx:126 | the value of a string of digits in a radix, most significant digit first |
| `IndexText.ParseMagnitude` | src/frontend-react/src/App.tsx:126 | the unsigned part of `parseInt`: a `0x`/`0X` prefix selects base 16, otherwise base 10, and the longest digit prefix is read; no digit gives `NaN` |
| `IndexText.Show` | src/frontend-react/src/App.tsx:126 | the decimal text of an index is non-empty, all decimal digits, and starts with 0 only for 0 itself |
| `IndexText.DigitsValueShow` | src/frontend-react/src/App.tsx:126 | the digits of an index's decimal text evaluate back to that index |
| `IndexText.DigitPrefixAll` | src/frontend-react/src/App.tsx:126 | a string made only of digits is read to its end |
| `IndexText.ParseMagnitudeDecimal` | src/frontend-react/src/App.tsx:126 | any non-empty decimal numeral, leading zeros included, is read in base 10 as the value of all its digits |
| `IndexText.ParseIntDecimal` | src/frontend-react/src/App.tsx:126 | `parseInt` of any non-empty decimal numeral, leading zeros included, is its value |
| `IndexText.ParseIntShow` | src/frontend-react/src/App.tsx:126 | `parseInt` of the decimal text of n is n |
| `App.EffectiveStops` | src/frontend-react/src/App.tsx:79-86 | the list the stops state is set to: the depot, if any, then the stops (layout in `EffectiveStopsLayout`) |
| `App.EffectiveStopsLayout` | src/frontend-react/src/App.tsx:79-86 | the effective list is the depot followed by the stops: the depot, when present, is at index 0 and stop i is at i+1; without a depot the stops keep their indices |
| `App.CenterOfEffectiveStops` | src/frontend-react/src/components/MapComponent.tsx:36-38 | the map centre is the depot's (lat, lng) when there is a depot, else the first stop's, else (-34.6037, -58.3816) |
| `App.RefetchInterval` | src/frontend-react/src/App.tsx:110-115 | polling stops exactly when the last answer's status is SUCCESS or FAILURE, and otherwise repeats after 1000 ms |
| `App.AddressAt` | src/frontend-react/src/App.tsx:132 | `stops[i]?.address`: undefined for `NaN` and for an index outside the list |
| `App.LookUp` | src/frontend-react/src/App.tsx:126-132 | `parseInt` of each index string, then `stops[i]?.address`, in order |
| `App.KeepTruthy` | src/frontend-react/src/App.tsx:132 | `.filter(Boolean)`: the defined, non-empty values, in order (properties in the `KeepTruthy…` lemmas) |
| `App.RemapIndices` | src/frontend-react/src/App.tsx:126-132 | `parseInt` of each index string, the address at that index of the stops, misses dropped (properties in `RemapLength`, `RemapMembers`, `RemapAppend`) |
| `App.KeepTruthyLength` | src/frontend-react/src/App.tsx:132 | `filter(Boolean)` never lengthens, and keeps the full length exactly when every entry is defined and non-empty |
| `App.KeepTruthyMembers` | src/frontend-react/src/App.tsx:132 | every kept address is non-empty and was one of the looked-up values |
| `App.KeepTruthyAppend` | src/frontend-react/src/App.tsx:132 | filtering preserves order: filtering a concatenation concatenates the filtered parts |
| `App.KeepTruthyAll` | src/frontend-react/src/App.tsx:132 | when every entry is defined and non-empty nothing is dropped |
| `App.RemapLength` | src/frontend-react/src/App.tsx:126-132 | the remapped order is never longer than the index list, and has the same length exactly when every index parses, is in range and names a stop with a non-empty address |
| `App.RemapMembers` | src/frontend-react/src/App.tsx:126-132 | every remapped address is the non-empty address of some stop in the effective list |
| `App.RemapAppend` | src/frontend-react/src/App.tsx:126-132 | remapping keeps the order of the returned indices |
| `App.RemapShownRoute` | src/frontend-react/src/App.tsx:126-132 | the decimal texts of in-range indices of stops with non-empty addresses remap to those stops' addresses, in the same order |
| `App.RemappedRoutePath` | src/frontend-react/src/App.tsx:126-133 | with distinct addresses, the map path drawn through the remapped order is the positions of the route's nodes, one for one |
| `App.RemapAgainstEditedStops` | src/frontend-react/src/App.tsx:119-141 | the remap uses the current stop list: indices 1, 0 give ["A", "Depot"] against depot and "A", but only ["A"] once the depot has been removed from the list |
| `App.Succeeded` | src/frontend-react/src/App.tsx:120 | the answer the success effect acts on: status SUCCESS with a result |
| `App.AppState.constructor` | src/frontend-react/src/App.tsx:69-73 | the page starts with no task id, no stops, an empty order, no metrics and no poll answer |
| `App.AppState.PollingEnabled` | src/frontend-react/src/App.tsx:109 | polling is enabled while the task id is present and non-empty and no metrics have arrived |
| `App.AppState.WatchForSuccess` | src/frontend-react/src/App.tsx:119-141 | on a SUCCESS answer with a result: the metrics are that result, which disables polling, and the order is the remap of its indices against the current stops, no longer than the indices and made of addresses of current stops; otherwise nothing changes; task id, stops and answer never change |
| `App.AppState.InputChanged` | src/frontend-react/src/App.tsx:76-90 | JSON that parses sets the stops to the depot (if any) followed by the stops and, when the kept answer is SUCCESS with a result, re-runs the success effect so the order is that answer's indices remapped against the new stops; text that does not parse changes nothing; the task id and the answer never change |
| `App.AppState.SubmitSucceeded` | src/frontend-react/src/App.tsx:95-99 | a successful submit sets the new task id, clears the order, the metrics and the poll answer of the previous task; polling is then enabled exactly when the id is non-empty |
| `App.AppState.TaskStatusChanged` | src/frontend-react/src/App.tsx:106-141 | a new poll answer is kept; if it is SUCCESS with a result, the metrics are stored, which disables polling, and the order is the remapped indices, no more than the indices and all addresses of current stops; any other answer changes neither order nor metrics |
| `MapView.Center` | src/frontend-react/src/components/MapComponent.tsx:36-38 | the first stop's (lat, lng), or (-34.6037, -58.3816) without stops |
| `MapView.AddrToStop` | src/frontend-react/src/components/MapComponent.tsx:46 | the `Map` built from `[address, stop]` pairs in list order (contents in `AddrToStopLookup`) |
| `MapView.LastIndexOf` | src/frontend-react/src/components/MapComponent.tsx:46 | the index of the last stop carrying an address (-1 when none does): that stop carries it and no later stop does |
| `MapView.AddrToStopLookup` | src/frontend-react/src/components/MapComponent.tsx:46 | the lookup holds exactly the addresses some stop carries, and for duplicate addresses resolves to the last stop carrying it |
| `MapView.Resolve` | src/frontend-react/src/components/MapComponent.tsx:48-53 | the positions of the order's addresses that the lookup knows, in order (properties in `ResolveKept`, `ResolveLength`, `ResolveAppend`) |
| `MapView.PathOf` | src/frontend-react/src/components/MapComponent.tsx:41-54 | the path: empty for an absent or empty order, otherwise the resolved positions |
| `MapView.PathCoordinates` | src/frontend-react/src/components/MapComponent.tsx:41-54 | the `forEach` loop produces exactly `PathOf(stops, optimizedOrder)`: empty when the order is absent or empty |
| `MapView.ResolveAppend` | src/frontend-react/src/components/MapComponent.tsx:48-53 | the path keeps the order of `optimizedOrder`: resolving a concatenation concatenates the resolved parts |
| `MapView.KeptIndices` | src/frontend-react/src/components/MapComponent.tsx:48-53 | the order entries that contribute to the path are, in increasing order, exactly those the lookup knows |
| `MapView.ResolveKept` | src/frontend-react/src/components/MapComponent.tsx:48-53 | path entry m is the position of the stop the lookup gives for the m-th contributing entry of the order |
| `MapView.ResolveAllKnown` | src/frontend-react/src/components/MapComponent.tsx:48-53 | when every address is known the path is the positions of their stops, one for one |
| `MapView.ResolveLength` | src/frontend-react/src/components/MapComponent.tsx:48-53 | the path is never longer than the order and has the same length exactly when every address is known |
| `MapView.PathLength` | src/frontend-react/src/components/MapComponent.tsx:41-53 | the path is never longer than `optimizedOrder`, and has the same length exactly when every address belongs to some stop |
| `MapView.PathPoints` | src/frontend-react/src/components/MapComponent.tsx:46-53 | each path point is the (lat, lng) of the last stop whose address is the corresponding order entry; skipped entries are addresses no stop carries |
| `MapView.DuplicateAddressUsesLastStop` | src/frontend-react/src/components/MapComponent.tsx:46 | with two stops at address "A", the path goes through the later one |

## Findings

| source | as written | input that shows it | evidently intended | confidence | as-written member | corrected member |
|---|---|---|---|---|---|---|
| src/api/endpoints.py:46-52 | `OptimizationResponse(...)` is built without `estimated_travel_time_minutes`, a required field (src/api/models.py:17), so validation fails after the log is saved and `monitor_performance` re-raises (src/core/decorators.py:25-27); the check of tests/test_api.py:22 cannot pass | any request, e.g. the two stops of tests/test_api.py:12-17 | the response carries a travel time and the endpoint returns the computed result with status "success" | not executed; high: required fields and missing argument read directly from the code | `Endpoints.EndpointAsWrittenRaises` | `Endpoints.EndpointIntendedReturns` |

## Left out

- The OR-Tools search is a parameter (`search`) of `Solve`, not a model. This covers the routing index manager, the routing model, the transit callback, the distance dimension with its 3,000,000 m limit and span cost coefficient 100, `PATH_CHEAPEST_ARC` and `SolveWithParameters`. The search's answer is described only by what `_extract_solution` reads from it. No other search exists in the code: a single location is not treated specially, and `no_solution` comes only from the search returning nothing.
- `_haversine` is the parameter `dist`: its trigonometry is floating-point.
- The transit callback's `int(km * 1000)` truncation is inside the abstract arc cost. The model therefore does not tie the arc costs to the matrix entries.
- Floating-point rounding is not modelled. Coordinates and distances are exact reals, so `route_distance / 1000.0` and `len(stops) * 1.5` are exact.
- Solver.LocalVRPSolver.Solve: whether the walk terminates, and whether every index on it names a location, are not modelled; they are preconditions (`IsChain` and `NodesWithin`), both guaranteed by OR-Tools for a solution it returns. The route's nodes being valid location indices follows from `NodesWithin`. That the route starts and ends at the depot is likewise OR-Tools' doing: `ExtractSolution` states it as the start node and the end node.
- The dict `solve` returns for an empty location list has no `"status"` key; `SolveResult.Status` is `None` there rather than a status string.
- Around the mock endpoint: the 2-second `asyncio.sleep`, the `perf_counter` timing, the `uuid4` route id and `execution_time_seconds` are not modelled.
- The audit log is modelled only as the entry it receives (`Outcome`'s `logged`, a `LogEntry`: count, distance and order). The entry's `route_id` and the `timestamp` that `save_log` adds are not modelled, and neither is the file that `MockStorageConnection.save_log` reads and rewrites.
- The `monitor_performance` decorator is modelled only as passing a raised error on; its timing and logging are not modelled.
- The value of `estimated_travel_time_minutes` is not modelled: the code computes none, so the intended response is described by the fields it carries, not their values.
- The Celery task and its broker configuration are not modelled: the task only passes `depot_index` to the solver and calls `solve`.
- No server code answers the client's status polls (src/api/main.py and src/api/endpoints.py define no `/tasks/{id}` route), so no task lifecycle is modelled. The poll answer is an input of `TaskStatusChanged`.
- JSON parsing in the page is modelled only by its outcome: `None` for text that does not parse, otherwise the depot and stops members. Members of the wrong type are not modelled.
- `handleOptimize`'s validation and the toasts (including the FAILURE toast the success effect repeats) are not modelled.
- The "Est. Time" hours/minutes formatting in `metricsCard` is not modelled: it is floating-point display logic.
- Rendering is not modelled: JSX, Leaflet markers and the polyline, `ChangeView` and react-query's scheduling (only its two decision rules and the answer it holds are modelled).
- IndexText.ParseInt: whitespace is the four ASCII characters space, tab, LF and CR, not the full Unicode set JavaScript skips. Results are unbounded integers, not IEEE doubles, so precision loss for very long digit strings is not modelled.
- The axios client, the FastAPI wiring, the Streamlit dashboard and the deployment smoke script are plumbing or UI and are not part of this model. Of the Pydantic schemas, `DeliveryPoint` and `OptimizationRequest` are modelled as datatypes and `OptimizationResponse` only by its set of required fields; `TaskResponse` is not modelled.
