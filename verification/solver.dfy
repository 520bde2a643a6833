/** The local VRP solver (src/core/solver.py): it builds the N×N great-circle
    distance matrix, hands it to OR-Tools, and reads vehicle 0's route back out of
    the solution by following successor links from the start to the end index.

    The haversine formula and the OR-Tools search are not modelled: the distance
    function and the search are parameters, and the search's answer is described
    only by the few calls `_extract_solution` makes on it (`Routing`). */
module Solver {
  import opened Wrappers

  /** A location as the solver receives it: (latitude, longitude) in degrees. */
  type Coord = (real, real)

  /** The great-circle distance in km between two locations (`_haversine`). */
  type DistanceFn = (Coord, Coord) -> real

  /** The dict `solve` returns, one constructor per shape it can have. */
  datatype SolveResult =
    | Empty(route: seq<int>, distance: real)
    | NoSolution(route: seq<int>, distance: real)
    | Optimized(routeIndices: seq<int>, totalDistanceKm: real, coordinatesOrdered: seq<Coord>)
  {
    /** The dict's "status" entry; the dict for an empty location list has none. */
    function Status(): (s: Option<string>)
      ensures s.None? <==> Empty?
    {
      match this
      case Empty(_, _) => None
      case NoSolution(_, _) => Some("no_solution")
      case Optimized(_, _, _) => Some("optimized")
    }
  }

  /** What `_extract_solution` reads from OR-Tools for vehicle 0: `routing.Start(0)`,
      `routing.IsEnd`, `solution.Value(routing.NextVar(_))`, `manager.IndexToNode`
      and `routing.GetArcCostForVehicle(_, _, 0)`, as functions of routing indices. */
  datatype Routing = Routing(
    start: int,
    isEnd: int -> bool,
    next: int -> int,
    indexToNode: int -> int,
    arcCost: (int, int) -> int)

  /** The search OR-Tools runs on a distance matrix for a number of vehicles and a
      depot node: a solution, or `None` when `SolveWithParameters` finds none. */
  type Search = (seq<seq<real>>, int, int) -> Option<Routing>

  /** `walk` is the chain of routing indices from the start index, following
      successor links, up to and including the first end index. */
  predicate IsChain(r: Routing, walk: seq<int>)
  {
    && |walk| > 0
    && walk[0] == r.start
    && r.isEnd(walk[|walk| - 1])
    && forall k :: 0 <= k < |walk| - 1 ==> !r.isEnd(walk[k]) && r.next(walk[k]) == walk[k + 1]
  }

  /** Every index on `walk` names a node of `locations`. */
  predicate NodesWithin(r: Routing, walk: seq<int>, n: nat)
  {
    forall k :: 0 <= k < |walk| ==> 0 <= r.indexToNode(walk[k]) < n
  }

  /** The node of each routing index on `walk`. */
  function Nodes(r: Routing, walk: seq<int>): seq<int>
  {
    seq(|walk|, k requires 0 <= k < |walk| => r.indexToNode(walk[k]))
  }

  /** The sum of the arc costs between consecutive indices of `walk`. */
  function WalkCost(r: Routing, walk: seq<int>): int
  {
    if |walk| < 2 then 0
    else WalkCost(r, walk[..|walk| - 1]) + r.arcCost(walk[|walk| - 2], walk[|walk| - 1])
  }

  /** The matrix `_compute_distance_matrix` is meant to build: zero on the
      diagonal, the distance between the two locations elsewhere. */
  function DistanceMatrix(locations: seq<Coord>, dist: DistanceFn): seq<seq<real>>
  {
    seq(|locations|, i requires 0 <= i < |locations| =>
      seq(|locations|, j requires 0 <= j < |locations| =>
        if i == j then 0.0 else dist(locations[i], locations[j])))
  }

  /** The (lat, lng) of each node of `route`. */
  function CoordinatesOf(locations: seq<Coord>, route: seq<int>): seq<Coord>
    requires forall k :: 0 <= k < |route| ==> 0 <= route[k] < |locations|
  {
    seq(|route|, k requires 0 <= k < |route| => locations[route[k]])
  }

  /** The matrix is square with one row per location, zero on the diagonal and
      the distance between the two locations everywhere else. */
  lemma DistanceMatrixShape(locations: seq<Coord>, dist: DistanceFn, i: int, j: int)
    requires 0 <= i < |locations| && 0 <= j < |locations|
    ensures var m := DistanceMatrix(locations, dist);
      && |m| == |locations| && |m[i]| == |locations|
      && (i == j ==> m[i][j] == 0.0)
      && (i != j ==> m[i][j] == dist(locations[i], locations[j]))
  {
  }

  /** A symmetric, non-negative distance gives a symmetric, non-negative matrix. */
  lemma DistanceMatrixSymmetric(locations: seq<Coord>, dist: DistanceFn)
    requires forall a, b :: dist(a, b) == dist(b, a)
    requires forall a, b :: dist(a, b) >= 0.0
    ensures var m := DistanceMatrix(locations, dist);
      forall i, j :: 0 <= i < |locations| && 0 <= j < |locations| ==>
        m[i][j] == m[j][i] && m[i][j] >= 0.0
  {
  }

  /** Following successor links from the start determines the walk: there is at
      most one chain, so the walk `_extract_solution` performs is well defined. */
  lemma {:induction false} ChainUnique(r: Routing, w1: seq<int>, w2: seq<int>)
    requires IsChain(r, w1) && IsChain(r, w2)
    ensures w1 == w2
  {
    var n := if |w1| <= |w2| then |w1| else |w2|;
    var k := 0;
    while k < n
      invariant 0 <= k <= n
      invariant w1[..k] == w2[..k]
      invariant k < n ==> w1[k] == w2[k]
    {
      if k + 1 < n {
        assert r.next(w1[k]) == w1[k + 1] && r.next(w2[k]) == w2[k + 1];
      }
      assert w1[..k + 1] == w1[..k] + [w1[k]] && w2[..k + 1] == w2[..k] + [w2[k]];
      k := k + 1;
    }
    assert w1[n - 1] == w2[n - 1];
    assert |w1| == |w2|;
    assert w1 == w1[..n] && w2 == w2[..n];
  }

  /** Arc costs that are never negative give a walk cost that is never negative. */
  lemma {:induction false} WalkCostNonNegative(r: Routing, walk: seq<int>)
    requires forall a, b :: r.arcCost(a, b) >= 0
    ensures WalkCost(r, walk) >= 0
  {
    if |walk| >= 2 {
      WalkCostNonNegative(r, walk[..|walk| - 1]);
    }
  }

  class LocalVRPSolver {
    const numVehicles: int
    const depotIndex: int

    constructor (vehicles: int := 1, depot: int := 0)
      ensures numVehicles == vehicles && depotIndex == depot
    {
      numVehicles := vehicles;
      depotIndex := depot;
    }

    /** `solve`: nothing is built for an empty location list; otherwise the search
        runs on the distance matrix and its route, if any, is read out. */
    method Solve(locations: seq<Coord>, dist: DistanceFn, search: Search, ghost walk: seq<int>)
      returns (result: SolveResult)
      requires |locations| > 0 ==>
        var solution := search(DistanceMatrix(locations, dist), numVehicles, depotIndex);
        solution.Some? ==>
          IsChain(solution.value, walk) && NodesWithin(solution.value, walk, |locations|)
      ensures |locations| == 0 ==> result == Empty([], 0.0)
      ensures |locations| > 0 ==>
        var solution := search(DistanceMatrix(locations, dist), numVehicles, depotIndex);
        && (solution.None? ==> result == NoSolution([], 0.0))
        && (solution.Some? ==>
              && result.Optimized?
              && result.routeIndices == Nodes(solution.value, walk)
              && result.totalDistanceKm == WalkCost(solution.value, walk) as real / 1000.0)
      ensures result.Optimized? ==>
        && |result.routeIndices| > 0
        && |result.coordinatesOrdered| == |result.routeIndices|
        && forall k :: 0 <= k < |result.routeIndices| ==>
             0 <= result.routeIndices[k] < |locations|
             && result.coordinatesOrdered[k] == locations[result.routeIndices[k]]
    {
      if |locations| == 0 {
        return Empty([], 0.0);
      }
      var distanceMatrix := ComputeDistanceMatrix(locations, dist);
      var solution := search(distanceMatrix, numVehicles, depotIndex);
      if solution.Some? {
        result := ExtractSolution(solution.value, locations, walk);
      } else {
        result := NoSolution([], 0.0);
      }
    }

    /** `_extract_solution`: the nodes along the walk from start to end (the end,
        i.e. the depot again, appended after the loop), the summed arc costs
        converted from metres to km, and the location of each visited node. */
    method ExtractSolution(r: Routing, locations: seq<Coord>, ghost walk: seq<int>)
      returns (result: SolveResult)
      requires IsChain(r, walk) && NodesWithin(r, walk, |locations|)
      ensures result.Optimized?
      ensures result.routeIndices == Nodes(r, walk)
      ensures result.routeIndices[0] == r.indexToNode(r.start)
      ensures r.isEnd(walk[|walk| - 1])
        && result.routeIndices[|result.routeIndices| - 1] == r.indexToNode(walk[|walk| - 1])
      ensures result.totalDistanceKm == WalkCost(r, walk) as real / 1000.0
      ensures |result.coordinatesOrdered| == |result.routeIndices|
      ensures forall k :: 0 <= k < |result.routeIndices| ==>
        0 <= result.routeIndices[k] < |locations|
        && result.coordinatesOrdered[k] == locations[result.routeIndices[k]]
    {
      var index := r.start;
      var routeIndices: seq<int> := [];
      var routeDistance := 0;
      ghost var k := 0;
      while !r.isEnd(index)
        invariant 0 <= k < |walk| && index == walk[k]
        invariant routeIndices == Nodes(r, walk[..k])
        invariant routeDistance == WalkCost(r, walk[..k + 1])
        decreases |walk| - k
      {
        var nodeIndex := r.indexToNode(index);
        routeIndices := routeIndices + [nodeIndex];
        var previousIndex := index;
        index := r.next(index);
        routeDistance := routeDistance + r.arcCost(previousIndex, index);
        k := k + 1;
        assert walk[..k + 1][..k] == walk[..k];
      }
      assert k == |walk| - 1;
      routeIndices := routeIndices + [r.indexToNode(index)];
      assert walk[..k + 1] == walk;
      var coordinatesOrdered := CoordinatesOf(locations, routeIndices);
      result := Optimized(routeIndices, routeDistance as real / 1000.0, coordinatesOrdered);
    }

    /** `_compute_distance_matrix`: a pre-allocated table of zeros filled row by
        row, with 0.0 on the diagonal and the distance everywhere else. */
    method ComputeDistanceMatrix(locations: seq<Coord>, dist: DistanceFn)
      returns (matrix: seq<seq<real>>)
      ensures matrix == DistanceMatrix(locations, dist)
    {
      var size := |locations|;
      matrix := seq(size, _ => seq(size, _ => 0.0));
      for i := 0 to size
        invariant |matrix| == size
        invariant forall r :: 0 <= r < size ==> |matrix[r]| == size
        invariant forall r :: 0 <= r < i ==> matrix[r] == DistanceMatrix(locations, dist)[r]
      {
        for j := 0 to size
          invariant |matrix| == size
          invariant forall r :: 0 <= r < size ==> |matrix[r]| == size
          invariant forall r :: 0 <= r < i ==> matrix[r] == DistanceMatrix(locations, dist)[r]
          invariant forall c :: 0 <= c < j ==>
            matrix[i][c] == if i == c then 0.0 else dist(locations[i], locations[c])
        {
          if i == j {
            matrix := matrix[i := matrix[i][j := 0.0]];
          } else {
            matrix := matrix[i := matrix[i][j := dist(locations[i], locations[j])]];
          }
        }
      }
    }
  }
}
