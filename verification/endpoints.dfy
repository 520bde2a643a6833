/** The synchronous `/optimize` endpoint (src/api/endpoints.py): a mock that
    "optimizes" by reversing the stops and reports a fake distance of 1.5 km
    per stop. The delay, timer and route id around it are not modelled. */
module Endpoints {
  import opened Wrappers

  /** `DeliveryPoint` of src/api/models.py. */
  datatype DeliveryPoint = DeliveryPoint(lat: real, lng: real, address: string)

  /** `OptimizationRequest` of src/api/models.py: an optional depot and the stops. */
  datatype OptimizationRequest = OptimizationRequest(depot: Option<DeliveryPoint>, stops: seq<DeliveryPoint>)

  /** What the endpoint computes: the `result` dict's count, distance and order,
      together with the status its response passes to `OptimizationResponse`. */
  datatype RouteResult = RouteResult(
    inputStopsCount: nat,
    totalDistanceKm: real,
    optimizedOrder: seq<string>,
    status: string)

  /** The `result` dict saved to the audit log, without its `route_id` and the
      `timestamp` that `save_log` adds: it carries no status. */
  datatype LogEntry = LogEntry(inputStopsCount: nat, totalDistanceKm: real, optimizedOrder: seq<string>)

  /** The log entry of a computed result. */
  function LogEntryOf(r: RouteResult): LogEntry
  {
    LogEntry(r.inputStopsCount, r.totalDistanceKm, r.optimizedOrder)
  }

  /** Fake kilometres charged per stop. */
  const KM_PER_STOP: real := 1.5

  /** Python's `s[::-1]`: the last element first. */
  function Reverse<T>(s: seq<T>): (r: seq<T>)
    ensures |r| == |s|
  {
    if |s| == 0 then [] else [s[|s| - 1]] + Reverse(s[..|s| - 1])
  }

  /** `[stop.address for stop in stops]`. */
  function AddressesOf(stops: seq<DeliveryPoint>): seq<string>
  {
    seq(|stops|, i requires 0 <= i < |stops| => stops[i].address)
  }

  /** Element `k` of the reversal is element `|s| - 1 - k` of the input. */
  lemma {:induction false} ReverseAt<T>(s: seq<T>, k: int)
    requires 0 <= k < |s|
    ensures |Reverse(s)| == |s| && Reverse(s)[k] == s[|s| - 1 - k]
  {
    if k > 0 {
      ReverseAt(s[..|s| - 1], k - 1);
    } else if |s| > 1 {
      ReverseAt(s[..|s| - 1], 0);
    }
  }

  /** Reversing preserves the length and maps every position to its mirror image. */
  lemma ReverseAll<T>(s: seq<T>)
    ensures |Reverse(s)| == |s|
    ensures forall k :: 0 <= k < |s| ==> Reverse(s)[k] == s[|s| - 1 - k]
  {
    if |s| > 0 {
      ReverseAt(s, 0);
    }
    forall k | 0 <= k < |s|
      ensures Reverse(s)[k] == s[|s| - 1 - k]
    {
      ReverseAt(s, k);
    }
  }

  /** Reversing twice gives back the original sequence. */
  lemma ReverseReverse<T>(s: seq<T>)
    ensures Reverse(Reverse(s)) == s
  {
    ReverseAll(s);
    ReverseAll(Reverse(s));
  }

  /** The result the endpoint computes for `request`. */
  function OptimizeRoute(request: OptimizationRequest): (r: RouteResult)
    ensures r.inputStopsCount == |request.stops|
    ensures |r.optimizedOrder| == |request.stops|
    ensures forall i :: 0 <= i < |request.stops| ==>
      r.optimizedOrder[i] == request.stops[|request.stops| - 1 - i].address
    ensures r.totalDistanceKm == |request.stops| as real * KM_PER_STOP
    ensures r.totalDistanceKm >= 0.0
    ensures r.totalDistanceKm == 0.0 <==> |request.stops| == 0
    ensures r.status == "success"
  {
    ReverseAll(request.stops);
    var optimizedStops := Reverse(request.stops);
    var optimizedAddresses := AddressesOf(optimizedStops);
    var distance := |request.stops| as real * KM_PER_STOP;
    RouteResult(|request.stops|, distance, optimizedAddresses, "success")
  }

  /** The depot of the request is never read: only the stops decide the result. */
  lemma OptimizeRouteIgnoresDepot(request: OptimizationRequest, depot: Option<DeliveryPoint>)
    ensures OptimizeRoute(request.(depot := depot)) == OptimizeRoute(request)
  {
  }

  /** Submitting the stops in the returned order yields the original addresses back. */
  lemma OptimizeRouteTwice(request: OptimizationRequest)
    ensures OptimizeRoute(request.(stops := Reverse(request.stops))).optimizedOrder
         == AddressesOf(request.stops)
  {
    ReverseReverse(request.stops);
  }

  /** The fields of `OptimizationResponse` (src/api/models.py), all of them required. */
  const RESPONSE_FIELDS: set<string> := {"route_id", "optimized_order", "total_distance_km",
    "estimated_travel_time_minutes", "execution_time_seconds", "status"}

  /** The keyword arguments the endpoint passes to `OptimizationResponse(...)`. */
  const ENDPOINT_ARGUMENTS: set<string> := {"route_id", "optimized_order", "total_distance_km",
    "execution_time_seconds", "status"}

  /** The arguments the response evidently needs: the endpoint's plus the travel time. */
  const INTENDED_ARGUMENTS: set<string> := ENDPOINT_ARGUMENTS + {"estimated_travel_time_minutes"}

  /** How a call of the endpoint ends: with the response, or with the validation
      error of the response constructor naming the missing fields, which
      `monitor_performance` logs and re-raises. Either way the result dict has
      been saved to the audit log first (`logged`). */
  datatype Outcome =
    | Returned(logged: LogEntry, response: RouteResult)
    | Raised(logged: LogEntry, missing: set<string>)

  /** The endpoint when it builds its response from `arguments` for a response
      type with the `required` fields: the result is computed and logged, then
      the response is validated. */
  function Respond(request: OptimizationRequest, required: set<string>, arguments: set<string>): (o: Outcome)
    ensures o.Returned? <==> required <= arguments
    ensures o.logged.inputStopsCount == |request.stops|
    ensures |o.logged.optimizedOrder| == |request.stops|
    ensures forall i :: 0 <= i < |request.stops| ==>
      o.logged.optimizedOrder[i] == request.stops[|request.stops| - 1 - i].address
    ensures o.logged.totalDistanceKm == |request.stops| as real * KM_PER_STOP
    ensures o.Returned? ==> o.response == OptimizeRoute(request)
    ensures o.Raised? ==> o.missing != {}
    ensures o.Raised? ==> forall f :: f in o.missing <==> f in required && f !in arguments
  {
    var r := OptimizeRoute(request);
    if required <= arguments then Returned(LogEntryOf(r), r)
    else
      MissingField(required, arguments);
      Raised(LogEntryOf(r), required - arguments)
  }

  /** When the arguments do not cover the required fields, some field is missing. */
  lemma MissingField(required: set<string>, arguments: set<string>)
    requires !(required <= arguments)
    ensures required - arguments != {}
  {
    var f :| f in required && f !in arguments;
    assert f in required - arguments;
  }

  /** As written, every call raises after logging: the response lacks
      `estimated_travel_time_minutes`. */
  lemma EndpointAsWrittenRaises(request: OptimizationRequest)
    ensures Respond(request, RESPONSE_FIELDS, ENDPOINT_ARGUMENTS)
         == Raised(LogEntryOf(OptimizeRoute(request)), {"estimated_travel_time_minutes"})
  {
    assert "estimated_travel_time_minutes" !in ENDPOINT_ARGUMENTS;
    assert RESPONSE_FIELDS - ENDPOINT_ARGUMENTS == {"estimated_travel_time_minutes"};
  }

  /** With the travel time supplied, every call returns the computed result. */
  lemma EndpointIntendedReturns(request: OptimizationRequest)
    ensures Respond(request, RESPONSE_FIELDS, INTENDED_ARGUMENTS)
         == Returned(LogEntryOf(OptimizeRoute(request)), OptimizeRoute(request))
  {
    assert RESPONSE_FIELDS <= INTENDED_ARGUMENTS;
  }

  /** The request of tests/test_api.py: once the response carries every required
      field, the two stops come back swapped, with a positive distance and status
      "success". */
  lemma OptimizeRouteTwoStops()
    ensures var ny := DeliveryPoint(40.7128, -74.0060, "New York");
      var la := DeliveryPoint(34.0522, -118.2437, "Los Angeles");
      var o := Respond(OptimizationRequest(None, [ny, la]), RESPONSE_FIELDS, INTENDED_ARGUMENTS);
      && o.Returned?
      && o.response.status == "success"
      && o.response.optimizedOrder == ["Los Angeles", "New York"]
      && o.response.totalDistanceKm > 0.0
  {
    var ny := DeliveryPoint(40.7128, -74.0060, "New York");
    var la := DeliveryPoint(34.0522, -118.2437, "Los Angeles");
    var request := OptimizationRequest(None, [ny, la]);
    EndpointIntendedReturns(request);
    var r := OptimizeRoute(request);
    assert r.optimizedOrder[0] == "Los Angeles" && r.optimizedOrder[1] == "New York";
  }
}
