/** The React client's page state (src/frontend-react/src/App.tsx): the stop list
    shown on the map, the task being polled, and the optimized order obtained by
    mapping the worker's index strings back to addresses. The server keeps no
    addresses, so the client remaps against the list it built itself, with the
    depot, when present, at index 0. JSON parsing, toasts, react-query and the
    rendering are not modelled. */
module App {
  import opened Wrappers
  import opened Api
  import IndexText
  import MapView

  /** The members of the parsed JSON text that the page reads. */
  datatype ParsedInput = ParsedInput(depot: Option<Stop>, stops: Option<seq<Stop>>)

  /** The `result` of a finished task, as far as the page reads it. */
  datatype TaskPayload = TaskPayload(
    optimizedOrder: seq<string>,
    totalDistanceKm: real,
    estimatedTravelTimeMinutes: real)

  /** An answer to a status poll (`TaskResult` in src/frontend-react/src/api.ts). */
  datatype TaskResult = TaskResult(taskId: string, status: string, result: Option<TaskPayload>)

  /** Milliseconds between two status polls. */
  const POLL_INTERVAL_MS: nat := 1000

  /** The list the stops state holds after a parse: the depot, if any, then the stops. */
  function EffectiveStops(parsed: ParsedInput): seq<Stop>
  {
    (if parsed.depot.Some? then [parsed.depot.value] else [])
      + (if parsed.stops.Some? then parsed.stops.value else [])
  }

  /** With a depot it is at index 0 and stop `i` is at `i + 1`; without one the
      stops keep their indices. */
  lemma EffectiveStopsLayout(parsed: ParsedInput)
    ensures var s := EffectiveStops(parsed);
      var given := if parsed.stops.Some? then parsed.stops.value else [];
      var offset := if parsed.depot.Some? then 1 else 0;
      && |s| == offset + |given|
      && (parsed.depot.Some? ==> s[0] == parsed.depot.value)
      && forall i :: 0 <= i < |given| ==> s[offset + i] == given[i]
  {
    var given := if parsed.stops.Some? then parsed.stops.value else [];
    if parsed.depot.Some? {
      assert EffectiveStops(parsed) == [parsed.depot.value] + given;
    } else {
      assert EffectiveStops(parsed) == given;
    }
  }

  /** The map is centred on the depot when there is one, else on the first stop,
      else on the default centre. */
  lemma CenterOfEffectiveStops(parsed: ParsedInput)
    ensures var c := MapView.Center(EffectiveStops(parsed));
      && (parsed.depot.Some? ==> c == MapView.Position(parsed.depot.value))
      && (parsed.depot.None? && parsed.stops.Some? && |parsed.stops.value| > 0 ==>
            c == MapView.Position(parsed.stops.value[0]))
      && (parsed.depot.None? && (parsed.stops.None? || |parsed.stops.value| == 0) ==>
            c == MapView.DEFAULT_CENTER)
  {
    EffectiveStopsLayout(parsed);
  }

  /** `stops[i]?.address`: undefined (`None`) for `NaN` and for an index outside the list. */
  function AddressAt(stops: seq<Stop>, index: Option<int>): Option<string>
  {
    if index.Some? && 0 <= index.value < |stops| then Some(stops[index.value].address) else None
  }

  /** `indices.map(i => stops[i]?.address)` after `parseInt` of each index string. */
  function LookUp(order: seq<string>, stops: seq<Stop>): seq<Option<string>>
  {
    seq(|order|, k requires 0 <= k < |order| => AddressAt(stops, IndexText.ParseInt(order[k])))
  }

  /** A value `filter(Boolean)` keeps: defined and not the empty string. */
  predicate Truthy(x: Option<string>)
  {
    x.Some? && x.value != ""
  }

  /** `.filter(Boolean)` over looked-up addresses. */
  function KeepTruthy(xs: seq<Option<string>>): seq<string>
  {
    if xs == [] then []
    else KeepTruthy(xs[..|xs| - 1]) + (if Truthy(xs[|xs| - 1]) then [xs[|xs| - 1].value] else [])
  }

  /** The optimized order the page shows: the address of each returned index,
      misses dropped. */
  function RemapIndices(order: seq<string>, stops: seq<Stop>): seq<string>
  {
    KeepTruthy(LookUp(order, stops))
  }

  /** `refetchInterval`: `None` (no further poll) once the last answer says
      SUCCESS or FAILURE, the poll interval otherwise. */
  function RefetchInterval(data: Option<TaskResult>): (interval: Option<nat>)
    ensures interval.None? <==> data.Some? && data.value.status in {"SUCCESS", "FAILURE"}
    ensures interval.Some? ==> interval.value == POLL_INTERVAL_MS
  {
    if data.Some? && (data.value.status == "SUCCESS" || data.value.status == "FAILURE") then None
    else Some(POLL_INTERVAL_MS)
  }

  /** Filtering never lengthens, and keeps everything exactly when everything is truthy. */
  lemma {:induction false} KeepTruthyLength(xs: seq<Option<string>>)
    ensures |KeepTruthy(xs)| <= |xs|
    ensures |KeepTruthy(xs)| == |xs| <==> forall k :: 0 <= k < |xs| ==> Truthy(xs[k])
  {
    if xs != [] {
      var init := xs[..|xs| - 1];
      KeepTruthyLength(init);
      assert forall k :: 0 <= k < |init| ==> xs[k] == init[k];
    }
  }

  /** Every kept value comes from some truthy entry. */
  lemma {:induction false} KeepTruthyMembers(xs: seq<Option<string>>)
    ensures forall a :: a in KeepTruthy(xs) ==> Some(a) in xs && a != ""
  {
    if xs != [] {
      var init := xs[..|xs| - 1];
      KeepTruthyMembers(init);
      assert forall x :: x in init ==> x in xs;
    }
  }

  /** Filtering a concatenation filters each part, so the kept values stay in order. */
  lemma {:induction false} KeepTruthyAppend(xs: seq<Option<string>>, ys: seq<Option<string>>)
    ensures KeepTruthy(xs + ys) == KeepTruthy(xs) + KeepTruthy(ys)
  {
    if ys == [] {
      assert xs + ys == xs;
    } else {
      assert (xs + ys)[..|xs + ys| - 1] == xs + ys[..|ys| - 1];
      KeepTruthyAppend(xs, ys[..|ys| - 1]);
    }
  }

  /** When every entry is truthy, nothing is dropped. */
  lemma {:induction false} KeepTruthyAll(xs: seq<Option<string>>)
    requires forall k :: 0 <= k < |xs| ==> Truthy(xs[k])
    ensures KeepTruthy(xs) == seq(|xs|, k requires 0 <= k < |xs| && Truthy(xs[k]) => xs[k].value)
  {
    if xs != [] {
      KeepTruthyAll(xs[..|xs| - 1]);
    }
  }

  /** Index text `s` parses to an index of `stops` whose address is not empty. */
  predicate Resolves(s: string, stops: seq<Stop>)
  {
    var i := IndexText.ParseInt(s);
    i.Some? && 0 <= i.value < |stops| && stops[i.value].address != ""
  }

  /** The remapped order is never longer than the index list, and is exactly as
      long precisely when every index parses, is in range and names a stop with
      a non-empty address. */
  lemma RemapLength(order: seq<string>, stops: seq<Stop>)
    ensures |RemapIndices(order, stops)| <= |order|
    ensures |RemapIndices(order, stops)| == |order| <==>
      forall k :: 0 <= k < |order| ==> Resolves(order[k], stops)
  {
    var xs := LookUp(order, stops);
    KeepTruthyLength(xs);
    assert forall k :: 0 <= k < |order| ==> (Truthy(xs[k]) <==> Resolves(order[k], stops));
  }

  /** Every remapped address is the non-empty address of some stop in the list. */
  lemma RemapMembers(order: seq<string>, stops: seq<Stop>)
    ensures forall a :: a in RemapIndices(order, stops) ==> a in Addresses(stops) && a != ""
  {
    var xs := LookUp(order, stops);
    KeepTruthyMembers(xs);
    forall a | a in KeepTruthy(xs) ensures a in Addresses(stops) {
      var k :| 0 <= k < |xs| && xs[k] == Some(a);
      var i := IndexText.ParseInt(order[k]).value;
      assert Addresses(stops)[i] == a;
    }
  }

  /** Remapping a concatenation remaps each part: the order of the indices is kept. */
  lemma RemapAppend(order1: seq<string>, order2: seq<string>, stops: seq<Stop>)
    ensures RemapIndices(order1 + order2, stops) == RemapIndices(order1, stops) + RemapIndices(order2, stops)
  {
    var xs, ys := LookUp(order1, stops), LookUp(order2, stops);
    var zs := LookUp(order1 + order2, stops);
    assert |zs| == |xs + ys|;
    forall k | 0 <= k < |zs| ensures zs[k] == (xs + ys)[k] {
      if k < |order1| {
        assert (order1 + order2)[k] == order1[k];
      } else {
        assert (order1 + order2)[k] == order2[k - |order1|];
      }
    }
    assert zs == xs + ys;
    KeepTruthyAppend(LookUp(order1, stops), LookUp(order2, stops));
  }

  /** The decimal texts of a route's node indices. */
  function ShowRoute(route: seq<nat>): seq<string>
  {
    seq(|route|, k requires 0 <= k < |route| => IndexText.Show(route[k]))
  }

  /** Remapping the decimal texts of in-range node indices over the list the
      request was built from gives each node's address, in route order. */
  lemma RemapShownRoute(route: seq<nat>, stops: seq<Stop>)
    requires forall k :: 0 <= k < |route| ==> route[k] < |stops| && stops[route[k]].address != ""
    ensures RemapIndices(ShowRoute(route), stops) ==
      seq(|route|, k requires 0 <= k < |route| => stops[route[k]].address)
  {
    var xs := LookUp(ShowRoute(route), stops);
    forall k | 0 <= k < |route| ensures xs[k] == Some(stops[route[k]].address) {
      IndexText.ParseIntShow(route[k]);
    }
    KeepTruthyAll(xs);
  }

  /** End to end: when the addresses are distinct, the map path through the
      remapped order visits the positions of the route's nodes, one for one. */
  lemma RemappedRoutePath(route: seq<nat>, stops: seq<Stop>)
    requires forall k :: 0 <= k < |route| ==> route[k] < |stops| && stops[route[k]].address != ""
    requires forall i, j :: 0 <= i < j < |stops| ==> stops[i].address != stops[j].address
    ensures MapView.PathOf(stops, Some(RemapIndices(ShowRoute(route), stops))) ==
      seq(|route|, k requires 0 <= k < |route| => MapView.Position(stops[route[k]]))
  {
    RemapShownRoute(route, stops);
    var order := RemapIndices(ShowRoute(route), stops);
    var lookup := MapView.AddrToStop(stops);
    forall k | 0 <= k < |order|
      ensures order[k] in lookup && lookup[order[k]] == stops[route[k]]
    {
      MapView.AddrToStopLookup(stops, order[k]);
      assert MapView.LastIndexOf(stops, order[k]) == route[k];
    }
    if |order| > 0 {
      MapView.ResolveAllKnown(lookup, order);
    }
  }

  /** The remap reads whatever list the page holds now: the order ["1", "0"]
      (any texts that parse to 1 and 0, see `ParseOneAndZero`) remapped against
      depot and stop "A" is ["A", "Depot"], but once the depot is deleted from
      the JSON the same order shows as ["A"] alone. */
  lemma RemapAgainstEditedStops(one: string, zero: string, depot: Stop, a: Stop)
    requires IndexText.ParseInt(one) == Some(1) && IndexText.ParseInt(zero) == Some(0)
    requires depot.address == "Depot" && a.address == "A"
    ensures RemapIndices([one, zero], [depot, a]) == ["A", "Depot"]
    ensures RemapIndices([one, zero], [a]) == ["A"]
  {
    FilterTwo(LookUp([one, zero], [depot, a]));
    FilterTwo(LookUp([one, zero], [a]));
  }

  /** `filter(Boolean)` over two looked-up values. */
  lemma FilterTwo(xs: seq<Option<string>>)
    requires |xs| == 2
    ensures KeepTruthy(xs) ==
      (if Truthy(xs[0]) then [xs[0].value] else []) + (if Truthy(xs[1]) then [xs[1].value] else [])
  {
    var init := xs[..1];
    assert init[..0] == [] && init[0] == xs[0];
    assert KeepTruthy(init) == (if Truthy(xs[0]) then [xs[0].value] else []);
  }

  /** The index texts "0" and "1" parse to 0 and 1. */
  lemma ParseOneAndZero()
    ensures IndexText.ParseInt("0") == Some(0) && IndexText.ParseInt("1") == Some(1)
  {
    IndexText.ParseIntDecimal("0");
    IndexText.ParseIntDecimal("1");
    assert IndexText.DigitsValue("1", 10) == 1;
  }

  /** A poll answer that the success effect acts on: SUCCESS with a result. */
  predicate Succeeded(taskStatus: Option<TaskResult>)
  {
    taskStatus.Some? && taskStatus.value.status == "SUCCESS" && taskStatus.value.result.Some?
  }

  /** The state hooks of the page, and the last poll answer react-query holds
      for the current task (`taskStatus`). */
  class AppState {
    var taskId: Option<string>
    var stops: seq<Stop>
    var optimizedOrder: seq<string>
    var optimizationMetrics: Option<TaskPayload>
    var taskStatus: Option<TaskResult>

    constructor ()
      ensures taskId == None && stops == [] && optimizedOrder == [] && optimizationMetrics == None
      ensures taskStatus == None
    {
      taskId, stops, optimizedOrder, optimizationMetrics := None, [], [], None;
      taskStatus := None;
    }

    /** `enabled: !!taskId && !optimizationMetrics`: poll only while there is a
        task id (the empty string counts as none) and no result yet. */
    predicate PollingEnabled()
      reads this
    {
      taskId.Some? && taskId.value != "" && optimizationMetrics.None?
    }

    /** The effect watching `[taskStatus, stops]`: a SUCCESS answer with a result
        stores it, which stops polling, and remaps its index strings against the
        current stops; any other answer changes nothing. */
    method WatchForSuccess()
      modifies this
      ensures taskId == old(taskId) && stops == old(stops) && taskStatus == old(taskStatus)
      ensures Succeeded(taskStatus) ==>
        && optimizationMetrics == taskStatus.value.result
        && optimizedOrder == RemapIndices(taskStatus.value.result.value.optimizedOrder, stops)
        && |optimizedOrder| <= |taskStatus.value.result.value.optimizedOrder|
        && (forall k :: 0 <= k < |optimizedOrder| ==> optimizedOrder[k] in Addresses(stops))
        && !PollingEnabled()
      ensures !Succeeded(taskStatus) ==>
        optimizationMetrics == old(optimizationMetrics) && optimizedOrder == old(optimizedOrder)
    {
      if Succeeded(taskStatus) {
        var result := taskStatus.value.result.value;
        var current := stops;
        optimizationMetrics := Some(result);
        var indices := seq(|result.optimizedOrder|, k requires 0 <= k < |result.optimizedOrder| =>
          IndexText.ParseInt(result.optimizedOrder[k]));
        var lookedUp := seq(|indices|, k requires 0 <= k < |indices| => AddressAt(current, indices[k]));
        assert forall k :: 0 <= k < |lookedUp| ==> lookedUp[k] == LookUp(result.optimizedOrder, stops)[k];
        assert lookedUp == LookUp(result.optimizedOrder, stops);
        var orderedAddresses := KeepTruthy(lookedUp);
        RemapLength(result.optimizedOrder, stops);
        RemapMembers(result.optimizedOrder, stops);
        optimizedOrder := orderedAddresses;
      }
    }

    /** The effect run when the JSON text changes: text that parses (`Some`) sets
        the stops to the depot, if any, followed by the stops. That is a new
        array, so the success effect runs again: after a SUCCESS answer the old
        index strings are remapped against the edited list. Other text leaves
        everything as it was. */
    method InputChanged(parsed: Option<ParsedInput>)
      modifies this
      ensures stops == if parsed.Some? then EffectiveStops(parsed.value) else old(stops)
      ensures taskId == old(taskId) && taskStatus == old(taskStatus)
      ensures parsed.Some? && Succeeded(taskStatus) ==>
        && optimizationMetrics == taskStatus.value.result
        && optimizedOrder == RemapIndices(taskStatus.value.result.value.optimizedOrder, stops)
      ensures !(parsed.Some? && Succeeded(taskStatus)) ==>
        optimizationMetrics == old(optimizationMetrics) && optimizedOrder == old(optimizedOrder)
    {
      if parsed.Some? {
        var p := parsed.value;
        var mapStops: seq<Stop> := [];
        if p.depot.Some? {
          mapStops := mapStops + [p.depot.value];
        }
        if p.stops.Some? {
          mapStops := mapStops + p.stops.value;
        }
        stops := mapStops;
        WatchForSuccess();
      }
    }

    /** `onSuccess` of the submit: remember the new task and forget the previous
        order and metrics, which (re)enables polling. The query key changes with
        the task id, so there is no answer for the new task yet. */
    method SubmitSucceeded(newTaskId: string)
      modifies this
      ensures taskId == Some(newTaskId) && optimizedOrder == [] && optimizationMetrics == None
      ensures taskStatus == None && stops == old(stops)
      ensures PollingEnabled() <==> newTaskId != ""
    {
      taskId := Some(newTaskId);
      optimizedOrder := [];
      optimizationMetrics := None;
      taskStatus := None;
    }

    /** A new poll answer: it is kept, and the success effect runs on it. */
    method TaskStatusChanged(answer: Option<TaskResult>)
      modifies this
      ensures taskStatus == answer && taskId == old(taskId) && stops == old(stops)
      ensures Succeeded(answer) ==>
        && optimizationMetrics == answer.value.result
        && optimizedOrder == RemapIndices(answer.value.result.value.optimizedOrder, stops)
        && |optimizedOrder| <= |answer.value.result.value.optimizedOrder|
        && (forall k :: 0 <= k < |optimizedOrder| ==> optimizedOrder[k] in Addresses(stops))
        && !PollingEnabled()
      ensures !Succeeded(answer) ==>
        optimizationMetrics == old(optimizationMetrics) && optimizedOrder == old(optimizedOrder)
    {
      taskStatus := answer;
      WatchForSuccess();
    }
  }
}
