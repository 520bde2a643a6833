/** The map panel of the React client (src/frontend-react/src/components/MapComponent.tsx):
    where the map is centred, and the red polyline drawn through the optimized
    order, found by looking each address up among the stops. Leaflet rendering
    is not modelled. */
module MapView {
  import opened Wrappers
  import opened Api

  /** A map position: (latitude, longitude). */
  type LatLng = (real, real)

  /** Buenos Aires, the centre used while there are no stops. */
  const DEFAULT_CENTER: LatLng := (-34.6037, -58.3816)

  function Position(stop: Stop): LatLng
  {
    (stop.lat, stop.lng)
  }

  /** `center`: the first stop, or the default centre when there is none. */
  function Center(stops: seq<Stop>): LatLng
  {
    if |stops| > 0 then Position(stops[0]) else DEFAULT_CENTER
  }

  /** `addrToStop = new Map(stops.map(s => [s.address, s]))`: entries are set in
      list order, so a later stop with the same address replaces an earlier one. */
  function AddrToStop(stops: seq<Stop>): map<string, Stop>
  {
    if stops == [] then map[]
    else AddrToStop(stops[..|stops| - 1])[stops[|stops| - 1].address := stops[|stops| - 1]]
  }

  /** The index of the last stop whose address is `addr`, or -1 when there is none. */
  function LastIndexOf(stops: seq<Stop>, addr: string): (k: int)
    ensures -1 <= k < |stops|
    ensures k >= 0 ==> stops[k].address == addr
    ensures forall j :: k < j < |stops| ==> stops[j].address != addr
  {
    if stops == [] then -1
    else if stops[|stops| - 1].address == addr then |stops| - 1
    else LastIndexOf(stops[..|stops| - 1], addr)
  }

  /** The lookup knows exactly the addresses some stop carries, and resolves each
      to the LAST stop carrying it. */
  lemma {:induction false} AddrToStopLookup(stops: seq<Stop>, addr: string)
    ensures addr in AddrToStop(stops) <==> LastIndexOf(stops, addr) >= 0
    ensures addr in AddrToStop(stops) ==> AddrToStop(stops)[addr] == stops[LastIndexOf(stops, addr)]
  {
    if stops != [] {
      AddrToStopLookup(stops[..|stops| - 1], addr);
    }
  }

  /** The positions of the addresses of `order` that `lookup` knows, in order. */
  function Resolve(lookup: map<string, Stop>, order: seq<string>): seq<LatLng>
  {
    if order == [] then []
    else
      var addr := order[|order| - 1];
      Resolve(lookup, order[..|order| - 1]) + (if addr in lookup then [Position(lookup[addr])] else [])
  }

  /** The indices into `order` of the addresses that `lookup` knows, ascending. */
  function Kept(lookup: map<string, Stop>, order: seq<string>): seq<nat>
  {
    if order == [] then []
    else Kept(lookup, order[..|order| - 1]) + (if order[|order| - 1] in lookup then [|order| - 1] else [])
  }

  /** What `pathCoordinates` ends up holding: nothing unless there is a non-empty
      order, otherwise the resolved positions. */
  function PathOf(stops: seq<Stop>, optimizedOrder: Option<seq<string>>): seq<LatLng>
  {
    if optimizedOrder.None? || |optimizedOrder.value| == 0 then []
    else Resolve(AddrToStop(stops), optimizedOrder.value)
  }

  /** The `forEach` that builds `pathCoordinates`, pushing the position of every
      address the lookup finds and skipping the others. */
  method PathCoordinates(stops: seq<Stop>, optimizedOrder: Option<seq<string>>)
    returns (pathCoordinates: seq<LatLng>)
    ensures pathCoordinates == PathOf(stops, optimizedOrder)
  {
    pathCoordinates := [];
    if optimizedOrder.Some? && |optimizedOrder.value| > 0 {
      var order := optimizedOrder.value;
      var addrToStop := AddrToStop(stops);
      for k := 0 to |order|
        invariant pathCoordinates == Resolve(addrToStop, order[..k])
      {
        var addr := order[k];
        if addr in addrToStop {
          var stop := addrToStop[addr];
          pathCoordinates := pathCoordinates + [(stop.lat, stop.lng)];
        }
        assert order[..k + 1][..k] == order[..k];
      }
      assert order[..|order|] == order;
    }
  }

  /** Resolving a concatenation resolves each part: the path keeps the order of
      the addresses it comes from. */
  lemma {:induction false} ResolveAppend(lookup: map<string, Stop>, a: seq<string>, b: seq<string>)
    ensures Resolve(lookup, a + b) == Resolve(lookup, a) + Resolve(lookup, b)
  {
    if b != [] {
      assert (a + b)[..|a + b| - 1] == a + b[..|b| - 1];
      ResolveAppend(lookup, a, b[..|b| - 1]);
    } else {
      assert a + b == a;
    }
  }

  /** `Kept` lists, in increasing order, exactly the indices of the addresses the
      lookup knows. */
  lemma {:induction false} KeptIndices(lookup: map<string, Stop>, order: seq<string>)
    ensures var kept := Kept(lookup, order);
      && |kept| <= |order|
      && (forall m :: 0 <= m < |kept| ==> kept[m] < |order|)
      && (forall m, m' :: 0 <= m < m' < |kept| ==> kept[m] < kept[m'])
      && (forall j :: 0 <= j < |order| ==> (order[j] in lookup <==> j in kept))
  {
    if order != [] {
      var init := order[..|order| - 1];
      KeptIndices(lookup, init);
      assert forall j :: 0 <= j < |init| ==> order[j] == init[j];
    }
  }

  /** Entry `m` of the resolved path is the position of the `Kept(...)[m]`-th
      address, which the lookup knows. */
  lemma {:induction false} ResolveKept(lookup: map<string, Stop>, order: seq<string>)
    ensures var path, kept := Resolve(lookup, order), Kept(lookup, order);
      && |path| == |kept|
      && (forall m :: 0 <= m < |kept| ==>
            kept[m] < |order| && order[kept[m]] in lookup && path[m] == Position(lookup[order[kept[m]]]))
  {
    if order != [] {
      var init := order[..|order| - 1];
      ResolveKept(lookup, init);
      KeptIndices(lookup, init);
      assert forall j :: 0 <= j < |init| ==> order[j] == init[j];
    }
  }

  /** When the lookup knows every address, the path is their positions, one for one. */
  lemma {:induction false} ResolveAllKnown(lookup: map<string, Stop>, order: seq<string>)
    requires forall j :: 0 <= j < |order| ==> order[j] in lookup
    ensures Resolve(lookup, order) ==
      seq(|order|, j requires 0 <= j < |order| && order[j] in lookup => Position(lookup[order[j]]))
  {
    if order != [] {
      var init := order[..|order| - 1];
      ResolveAllKnown(lookup, init);
    }
  }

  /** The resolved path is never longer than the order, and is exactly as long
      precisely when the lookup knows every address of the order. */
  lemma {:induction false} ResolveLength(lookup: map<string, Stop>, order: seq<string>)
    ensures |Resolve(lookup, order)| <= |order|
    ensures |Resolve(lookup, order)| == |order| <==>
      forall j :: 0 <= j < |order| ==> order[j] in lookup
  {
    if order != [] {
      var init := order[..|order| - 1];
      ResolveLength(lookup, init);
      assert forall j :: 0 <= j < |init| ==> order[j] == init[j];
    }
  }

  /** The path is never longer than the order, and is exactly as long precisely
      when every address of the order belongs to some stop. */
  lemma PathLength(stops: seq<Stop>, order: seq<string>)
    ensures |PathOf(stops, Some(order))| <= |order|
    ensures |PathOf(stops, Some(order))| == |order| <==>
      forall j :: 0 <= j < |order| ==> order[j] in Addresses(stops)
  {
    var lookup := AddrToStop(stops);
    ResolveLength(lookup, order);
    forall j | 0 <= j < |order|
      ensures order[j] in lookup <==> order[j] in Addresses(stops)
    {
      AddrToStopLookup(stops, order[j]);
      var k := LastIndexOf(stops, order[j]);
      if k >= 0 {
        assert Addresses(stops)[k] == order[j];
      } else {
        assert forall i :: 0 <= i < |stops| ==> Addresses(stops)[i] != order[j];
      }
    }
  }

  /** Each point of the path is the position of the last stop whose address is the
      corresponding entry of the order; entries no stop carries are skipped. */
  lemma PathPoints(stops: seq<Stop>, order: seq<string>)
    ensures var path, kept := PathOf(stops, Some(order)), Kept(AddrToStop(stops), order);
      && |path| == |kept|
      && (forall m :: 0 <= m < |kept| ==>
            kept[m] < |order|
            && 0 <= LastIndexOf(stops, order[kept[m]])
            && stops[LastIndexOf(stops, order[kept[m]])].address == order[kept[m]]
            && path[m] == Position(stops[LastIndexOf(stops, order[kept[m]])]))
      && (forall j :: 0 <= j < |order| && j !in kept ==>
            forall i :: 0 <= i < |stops| ==> stops[i].address != order[j])
  {
    var lookup := AddrToStop(stops);
    ResolveKept(lookup, order);
    KeptIndices(lookup, order);
    forall j | 0 <= j < |order|
      ensures order[j] in lookup <==> LastIndexOf(stops, order[j]) >= 0
      ensures order[j] in lookup ==> lookup[order[j]] == stops[LastIndexOf(stops, order[j])]
    {
      AddrToStopLookup(stops, order[j]);
    }
  }

  /** With two stops at the same address, the path goes through the later one. */
  lemma DuplicateAddressUsesLastStop()
    ensures var first, other, last := Stop(1.0, 1.0, "A"), Stop(2.0, 2.0, "B"), Stop(3.0, 3.0, "A");
      PathOf([first, other, last], Some(["A", "B"])) == [(3.0, 3.0), (2.0, 2.0)]
  {
    var first, other, last := Stop(1.0, 1.0, "A"), Stop(2.0, 2.0, "B"), Stop(3.0, 3.0, "A");
    var stops := [first, other, last];
    AddrToStopLookup(stops, "A");
    AddrToStopLookup(stops, "B");
    assert LastIndexOf(stops, "A") == 2;
    assert stops[..2][..1] == [first];
    assert LastIndexOf(stops, "B") == 1;
    var lookup := AddrToStop(stops);
    assert "A" in lookup && lookup["A"] == last;
    assert "B" in lookup && lookup["B"] == other;
    assert ["A", "B"][..1] == ["A"] && ["A"][..0] == [];
    assert Resolve(lookup, ["A"]) == [(3.0, 3.0)];
  }
}
