/** The route diagram: which inter-CD routes, delivery routes and markers are drawn for
    given CDs and delivery points, which of them are highlighted, the colours of a
    delivery marker, the dash-animation counter and the CD click handler.

    Routes are computed as in the markup: every connection and every delivery point is
    mapped to a route or to nothing (a missing CD makes the callback return null), so a
    dangling reference drops that route and nothing else. */
module RouteVisualization {
  import opened Wrappers
  import opened Entities

  // ---------------------------------------------------------------------------
  // Joins over CD ids

  /** cds.find(cd => cd.id === id): the first CD with that id, if any. */
  function FindCd(cds: seq<CD>, id: string): (r: Option<CD>)
    ensures r.None? <==> forall i :: 0 <= i < |cds| ==> cds[i].id != id
    ensures r.Some? ==> r.value in cds && r.value.id == id
    decreases |cds|
  {
    if |cds| == 0 then None
    else if cds[0].id == id then Some(cds[0])
    else FindCd(cds[1..], id)
  }

  /** The CD found is the first one with that id. */
  lemma {:induction false} FindCdIsFirst(cds: seq<CD>, id: string)
    requires FindCd(cds, id).Some?
    ensures exists i :: 0 <= i < |cds| && cds[i] == FindCd(cds, id).value
                        && forall j :: 0 <= j < i ==> cds[j].id != id
    decreases |cds|
  {
    if cds[0].id != id {
      FindCdIsFirst(cds[1..], id);
      var i :| 0 <= i < |cds[1..]| && cds[1..][i] == FindCd(cds[1..], id).value
               && forall j :: 0 <= j < i ==> cds[1..][j].id != id;
      assert cds[i + 1] == FindCd(cds, id).value;
      assert forall j :: 1 <= j < i + 1 ==> cds[j] == cds[1..][j - 1];
    } else {
      assert cds[0] == FindCd(cds, id).value;
    }
  }

  /** The connection table drawn by the component: a constant of its own, not the
      connections the data loader fetches. */
  const FixedConnections: seq<Connection> := [
    Connection("cd1", "cd2", Active),
    Connection("cd1", "cd3", Active),
    Connection("cd2", "cd3", Inactive)
  ]

  datatype CdRoute = CdRoute(connection: Connection, from: CD, to: CD)

  datatype DeliveryRoute = DeliveryRoute(point: DeliveryPoint, cd: CD)

  /** The inter-CD routes: one per connection whose two ends are both found, in the
      order of the connections. */
  function CdRoutes(cds: seq<CD>, connections: seq<Connection>): (r: seq<CdRoute>)
    ensures |r| <= |connections|
    ensures forall k :: 0 <= k < |r| ==>
      && r[k].connection in connections
      && FindCd(cds, r[k].connection.from) == Some(r[k].from)
      && FindCd(cds, r[k].connection.to) == Some(r[k].to)
    decreases |connections|
  {
    if connections == [] then []
    else
      var c := connections[0];
      var rest := CdRoutes(cds, connections[1..]);
      var fromCd := FindCd(cds, c.from);
      var toCd := FindCd(cds, c.to);
      if fromCd.Some? && toCd.Some? then [CdRoute(c, fromCd.value, toCd.value)] + rest
      else rest
  }

  /** Every connection whose two ends are found gets a route. */
  lemma {:induction false} CdRoutesComplete(cds: seq<CD>, connections: seq<Connection>, c: Connection)
    requires c in connections && FindCd(cds, c.from).Some? && FindCd(cds, c.to).Some?
    ensures exists k :: 0 <= k < |CdRoutes(cds, connections)| && CdRoutes(cds, connections)[k].connection == c
    decreases |connections|
  {
    var r := CdRoutes(cds, connections);
    var head, rest := connections[0], connections[1..];
    var tail := CdRoutes(cds, rest);
    if FindCd(cds, head.from).Some? && FindCd(cds, head.to).Some? {
      assert r == [CdRoute(head, FindCd(cds, head.from).value, FindCd(cds, head.to).value)] + tail;
      if c == head {
        assert r[0].connection == c;
      } else {
        assert c in rest;
        CdRoutesComplete(cds, rest, c);
        var k :| 0 <= k < |tail| && tail[k].connection == c;
        assert r[k + 1] == tail[k];
      }
    } else {
      assert r == tail;
      assert c != head && c in rest;
      CdRoutesComplete(cds, rest, c);
    }
  }

  /** The delivery routes: one per delivery point whose assigned CD is found, in the
      order of the points. */
  function DeliveryRoutes(cds: seq<CD>, points: seq<DeliveryPoint>): (r: seq<DeliveryRoute>)
    ensures |r| <= |points|
    ensures forall k :: 0 <= k < |r| ==>
      r[k].point in points && FindCd(cds, r[k].point.assignedCD) == Some(r[k].cd)
    decreases |points|
  {
    if points == [] then []
    else
      var p := points[0];
      var rest := DeliveryRoutes(cds, points[1..]);
      var cd := FindCd(cds, p.assignedCD);
      if cd.Some? then [DeliveryRoute(p, cd.value)] + rest
      else rest
  }

  /** Every delivery point whose assigned CD is found gets a route. */
  lemma {:induction false} DeliveryRoutesComplete(cds: seq<CD>, points: seq<DeliveryPoint>, p: DeliveryPoint)
    requires p in points && FindCd(cds, p.assignedCD).Some?
    ensures exists k :: 0 <= k < |DeliveryRoutes(cds, points)| && DeliveryRoutes(cds, points)[k].point == p
    decreases |points|
  {
    var r := DeliveryRoutes(cds, points);
    var head, rest := points[0], points[1..];
    var tail := DeliveryRoutes(cds, rest);
    if FindCd(cds, head.assignedCD).Some? {
      assert r == [DeliveryRoute(head, FindCd(cds, head.assignedCD).value)] + tail;
      if p == head {
        assert r[0].point == p;
      } else {
        assert p in rest;
        DeliveryRoutesComplete(cds, rest, p);
        var k :| 0 <= k < |tail| && tail[k].point == p;
        assert r[k + 1] == tail[k];
      }
    } else {
      assert r == tail;
      assert p != head && p in rest;
      DeliveryRoutesComplete(cds, rest, p);
    }
  }

  /** The inter-CD routes the component draws: only connections of its own fixed table,
      each between two CDs of the list whose ids are the connection's ends. */
  function InterCdRoutes(cds: seq<CD>): (r: seq<CdRoute>)
    ensures |r| <= |FixedConnections|
    ensures forall k :: 0 <= k < |r| ==>
      && r[k].connection in FixedConnections
      && r[k].from in cds && r[k].from.id == r[k].connection.from
      && r[k].to in cds && r[k].to.id == r[k].connection.to
  {
    CdRoutes(cds, FixedConnections)
  }

  /** Lines 128-131: a connection gets a route exactly when both its ends match a CD. */
  lemma CdRouteDrawnIff(cds: seq<CD>, connections: seq<Connection>, c: Connection)
    requires c in connections
    ensures (exists k :: 0 <= k < |CdRoutes(cds, connections)| && CdRoutes(cds, connections)[k].connection == c)
      <==> (exists i :: 0 <= i < |cds| && cds[i].id == c.from) && (exists j :: 0 <= j < |cds| && cds[j].id == c.to)
  {
    var r := CdRoutes(cds, connections);
    if exists k :: 0 <= k < |r| && r[k].connection == c {
      var k :| 0 <= k < |r| && r[k].connection == c;
      assert FindCd(cds, c.from).Some? && FindCd(cds, c.to).Some?;
    }
    if FindCd(cds, c.from).Some? && FindCd(cds, c.to).Some? {
      CdRoutesComplete(cds, connections, c);
    }
  }

  /** Lines 171-173: a delivery point gets a route exactly when its assigned CD matches
      a CD. */
  lemma DeliveryRouteDrawnIff(cds: seq<CD>, points: seq<DeliveryPoint>, p: DeliveryPoint)
    requires p in points
    ensures (exists k :: 0 <= k < |DeliveryRoutes(cds, points)| && DeliveryRoutes(cds, points)[k].point == p)
      <==> exists i :: 0 <= i < |cds| && cds[i].id == p.assignedCD
  {
    var r := DeliveryRoutes(cds, points);
    if exists k :: 0 <= k < |r| && r[k].point == p {
      var k :| 0 <= k < |r| && r[k].point == p;
      assert FindCd(cds, p.assignedCD).Some?;
    }
    if FindCd(cds, p.assignedCD).Some? {
      DeliveryRoutesComplete(cds, points, p);
    }
  }

  /** The connections the inter-CD routes are drawn for, in order. */
  function RouteConnections(r: seq<CdRoute>): seq<Connection>
    decreases |r|
  {
    if r == [] then [] else [r[0].connection] + RouteConnections(r[1..])
  }

  /** The delivery points the delivery routes are drawn for, in order. */
  function RoutePoints(r: seq<DeliveryRoute>): seq<DeliveryPoint>
    decreases |r|
  {
    if r == [] then [] else [r[0].point] + RoutePoints(r[1..])
  }

  /** No connection gets more routes than it has occurrences in the table. */
  lemma {:induction false} CdRoutesAtMostOncePerConnection(cds: seq<CD>, connections: seq<Connection>)
    ensures multiset(RouteConnections(CdRoutes(cds, connections))) <= multiset(connections)
    decreases |connections|
  {
    if connections != [] {
      var head, rest := connections[0], connections[1..];
      var tail := CdRoutes(cds, rest);
      CdRoutesAtMostOncePerConnection(cds, rest);
      assert connections == [head] + rest;
      var r := CdRoutes(cds, connections);
      if r != tail {
        assert r[1..] == tail;
        assert RouteConnections(r) == [head] + RouteConnections(tail);
      }
    }
  }

  /** No delivery point gets more routes than it has occurrences in the list. */
  lemma {:induction false} DeliveryRoutesAtMostOncePerPoint(cds: seq<CD>, points: seq<DeliveryPoint>)
    ensures multiset(RoutePoints(DeliveryRoutes(cds, points))) <= multiset(points)
    decreases |points|
  {
    if points != [] {
      var head, rest := points[0], points[1..];
      var tail := DeliveryRoutes(cds, rest);
      DeliveryRoutesAtMostOncePerPoint(cds, rest);
      assert points == [head] + rest;
      var r := DeliveryRoutes(cds, points);
      if r != tail {
        assert r[1..] == tail;
        assert RoutePoints(r) == [head] + RoutePoints(tail);
      }
    }
  }

  /** When no connection dangles, every connection gets a route. */
  lemma {:induction false} CdRoutesAllDrawn(cds: seq<CD>, connections: seq<Connection>)
    requires forall k :: 0 <= k < |connections| ==>
      FindCd(cds, connections[k].from).Some? && FindCd(cds, connections[k].to).Some?
    ensures |CdRoutes(cds, connections)| == |connections|
    decreases |connections|
  {
    if connections != [] {
      assert forall k :: 1 <= k < |connections| ==> connections[1..][k - 1] == connections[k];
      CdRoutesAllDrawn(cds, connections[1..]);
    }
  }

  /** When no delivery point dangles, every point gets a route. */
  lemma {:induction false} DeliveryRoutesAllDrawn(cds: seq<CD>, points: seq<DeliveryPoint>)
    requires forall k :: 0 <= k < |points| ==> FindCd(cds, points[k].assignedCD).Some?
    ensures |DeliveryRoutes(cds, points)| == |points|
    decreases |points|
  {
    if points != [] {
      assert forall k :: 1 <= k < |points| ==> points[1..][k - 1] == points[k];
      DeliveryRoutesAllDrawn(cds, points[1..]);
    }
  }

  // ---------------------------------------------------------------------------
  // Markers

  datatype CdMarker = CdMarker(cd: CD, selected: bool)

  datatype PointMarker = PointMarker(point: DeliveryPoint, hovered: bool, fromSelectedCd: bool, triangleSize: int)

  /** Lines 212-254: one marker group per CD, enlarged when selected. */
  function CdMarkers(cds: seq<CD>, selectedCd: Option<string>): (r: seq<CdMarker>)
    ensures |r| == |cds|
    ensures forall i :: 0 <= i < |r| ==> r[i].cd == cds[i]
    ensures forall i :: 0 <= i < |r| ==> (r[i].selected <==> selectedCd == Some(cds[i].id))
  {
    seq(|cds|, i requires 0 <= i < |cds| => CdMarker(cds[i], selectedCd == Some(cds[i].id)))
  }

  /** Lines 280-330: one marker group per delivery point, whatever its assigned CD. */
  function PointMarkers(points: seq<DeliveryPoint>, selectedCd: Option<string>, hoveredPoint: Option<string>): (r: seq<PointMarker>)
    ensures |r| == |points|
    ensures forall i :: 0 <= i < |r| ==> r[i].point == points[i]
    ensures forall i :: 0 <= i < |r| ==> (r[i].hovered <==> hoveredPoint == Some(points[i].id))
    ensures forall i :: 0 <= i < |r| ==> (r[i].fromSelectedCd <==> selectedCd == Some(points[i].assignedCD))
    ensures forall i :: 0 <= i < |r| ==> r[i].triangleSize == (if r[i].hovered then 10 else 8)
  {
    seq(|points|, i requires 0 <= i < |points| =>
      var hovered := hoveredPoint == Some(points[i].id);
      PointMarker(points[i], hovered, selectedCd == Some(points[i].assignedCD), if hovered then 10 else 8))
  }

  /** A delivery point whose assigned CD is missing keeps its marker and has no route. */
  lemma DanglingPointKeepsMarkerOnly(cds: seq<CD>, points: seq<DeliveryPoint>, i: nat,
                                     selectedCd: Option<string>, hoveredPoint: Option<string>)
    requires i < |points|
    requires forall j :: 0 <= j < |cds| ==> cds[j].id != points[i].assignedCD
    ensures PointMarkers(points, selectedCd, hoveredPoint)[i].point == points[i]
    ensures forall k :: 0 <= k < |DeliveryRoutes(cds, points)| ==> DeliveryRoutes(cds, points)[k].point != points[i]
  {
  }

  // ---------------------------------------------------------------------------
  // Highlighting

  /** Line 133: an inter-CD route is highlighted when the selected CD is one of its ends. */
  function CdRouteHighlighted(selectedCd: Option<string>, c: Connection): (highlighted: bool)
    ensures selectedCd == None ==> !highlighted
    ensures selectedCd == Some(c.from) || selectedCd == Some(c.to) ==> highlighted
    ensures highlighted ==> selectedCd.Some? && selectedCd.value in {c.from, c.to}
  {
    selectedCd == Some(c.from) || selectedCd == Some(c.to)
  }

  /** Line 175: a delivery route is highlighted when its CD is selected or its point is
      hovered. */
  function DeliveryRouteHighlighted(selectedCd: Option<string>, hoveredPoint: Option<string>, p: DeliveryPoint): (highlighted: bool)
    ensures selectedCd == None && hoveredPoint == None ==> !highlighted
    ensures selectedCd == Some(p.assignedCD) ==> highlighted
    ensures hoveredPoint == Some(p.id) ==> highlighted
    ensures highlighted ==> selectedCd == Some(p.assignedCD) || hoveredPoint == Some(p.id)
  {
    selectedCd == Some(p.assignedCD) || hoveredPoint == Some(p.id)
  }

  /** A delivery route is highlighted exactly when its point's marker is emphasised
      (halo and glow, lines 281-282 and 293): the two conditions are the same. */
  lemma RouteHighlightMatchesMarker(cds: seq<CD>, points: seq<DeliveryPoint>, selectedCd: Option<string>,
                                    hoveredPoint: Option<string>, i: nat)
    requires i < |points|
    ensures var m := PointMarkers(points, selectedCd, hoveredPoint)[i];
      DeliveryRouteHighlighted(selectedCd, hoveredPoint, points[i]) <==> m.hovered || m.fromSelectedCd
  {
  }

  /** With nothing selected and nothing hovered no route is highlighted; a drawn
      inter-CD route is highlighted exactly when the selected CD is one of the two CDs
      it is drawn between. */
  lemma HighlightFollowsSelection(cds: seq<CD>, connections: seq<Connection>, selectedCd: Option<string>,
                                  hoveredPoint: Option<string>, c: Connection, p: DeliveryPoint)
    ensures selectedCd == None && hoveredPoint == None ==>
      !CdRouteHighlighted(selectedCd, c) && !DeliveryRouteHighlighted(selectedCd, hoveredPoint, p)
    ensures forall route :: route in CdRoutes(cds, connections) ==>
      (CdRouteHighlighted(selectedCd, route.connection) <==> selectedCd == Some(route.from.id) || selectedCd == Some(route.to.id))
    ensures hoveredPoint == None ==>
      (DeliveryRouteHighlighted(selectedCd, hoveredPoint, p) <==> selectedCd == Some(p.assignedCD))
  {
  }

  /** Selecting cd1 highlights the two cd1 routes of the fixed table and not cd2-cd3. */
  lemma SelectingCd1HighlightsItsTwoRoutes()
    ensures CdRouteHighlighted(Some("cd1"), FixedConnections[0])
    ensures CdRouteHighlighted(Some("cd1"), FixedConnections[1])
    ensures !CdRouteHighlighted(Some("cd1"), FixedConnections[2])
  {
  }

  // ---------------------------------------------------------------------------
  // Colours

  const Accent := "hsl(var(--accent))"
  const RouteActive := "hsl(var(--route-active))"
  const MutedForeground := "hsl(var(--muted-foreground))"
  const Destructive := "hsl(var(--destructive))"

  /** getStatusColor: defined for every string; unknown statuses get the muted colour. */
  function StatusColor(status: string): (colour: string)
    ensures colour in {Accent, RouteActive, MutedForeground}
    ensures colour == Accent <==> status == "delivered"
    ensures colour == RouteActive <==> status == "in_transit"
  {
    if status == "delivered" then Accent
    else if status == "in_transit" then RouteActive
    else MutedForeground
  }

  /** getPriorityColor: defined for every string; unknown priorities get the muted colour. */
  function PriorityColor(priority: string): (colour: string)
    ensures colour in {Destructive, RouteActive, MutedForeground}
    ensures colour == Destructive <==> priority == "high"
    ensures colour == RouteActive <==> priority == "medium"
  {
    if priority == "high" then Destructive
    else if priority == "medium" then RouteActive
    else MutedForeground
  }

  /** On the statuses and priorities a delivery point can have, the colours are the
      documented ones; pending and low share the muted default. */
  lemma MarkerColours(p: DeliveryPoint)
    ensures StatusColor(StatusName(p.status)) ==
      match p.status case Delivered => Accent case InTransit => RouteActive case Pending => MutedForeground
    ensures PriorityColor(PriorityName(p.priority)) ==
      match p.priority case High => Destructive case Medium => RouteActive case Low => MutedForeground
  {
  }

  // ---------------------------------------------------------------------------
  // Animation counter and clicks

  /** The interval's update of animationOffset, every 100 ms. The offset is never
      negative, so JavaScript's truncating % agrees with Dafny's. */
  function AnimationStep(prev: nat): (next: nat)
    ensures next < 20
    ensures prev % 2 == 0 ==> next % 2 == 0
  {
    (prev + 2) % 20
  }

  /** The offset after n steps from the initial 0. */
  function OffsetAfter(n: nat): (offset: nat)
    ensures offset % 2 == 0 && offset <= 18
  {
    if n == 0 then 0 else AnimationStep(OffsetAfter(n - 1))
  }

  /** During the first ten steps the offset grows by 2 per step. */
  lemma {:induction false} OffsetFirstTenSteps(n: nat)
    requires n < 10
    ensures OffsetAfter(n) == 2 * n
  {
    if n > 0 {
      OffsetFirstTenSteps(n - 1);
    }
  }

  /** Ten steps bring the offset back to where it was. */
  lemma {:induction false} OffsetPeriodTen(n: nat)
    ensures OffsetAfter(n + 10) == OffsetAfter(n)
  {
    if n == 0 {
      OffsetFirstTenSteps(9);
    } else {
      OffsetPeriodTen(n - 1);
    }
  }

  /** The offset is back at 0 after every multiple of 10 steps. */
  lemma {:induction false} OffsetZeroEveryTenSteps(k: nat)
    ensures OffsetAfter(10 * k) == 0
  {
    if k > 0 {
      OffsetZeroEveryTenSteps(k - 1);
      OffsetPeriodTen(10 * (k - 1));
    }
  }

  /** The value a click on a CD passes to onCDSelect (line 253), and the value the
      dashboard's sidebar click installs (DMSDashboard.tsx line 161). */
  function ClickSelection(selectedCd: Option<string>, id: string): (r: Option<string>)
    ensures r == None <==> selectedCd == Some(id)
    ensures r != None ==> r == Some(id)
  {
    if selectedCd == Some(id) then None else Some(id)
  }

  /** Two clicks on the same CD restore the selection when it was that CD or nothing. */
  lemma DoubleClickRestores(selectedCd: Option<string>, id: string)
    ensures selectedCd == None || selectedCd == Some(id) ==>
      ClickSelection(ClickSelection(selectedCd, id), id) == selectedCd
    ensures ClickSelection(ClickSelection(selectedCd, id), id) == if selectedCd == Some(id) then Some(id) else None
  {
  }

  /** The component's own state: the hovered point and the animation offset. */
  class RouteView {
    var hoveredPoint: Option<string>
    var animationOffset: nat

    ghost predicate Valid()
      reads this
    {
      animationOffset % 2 == 0 && animationOffset <= 18
    }

    constructor ()
      ensures Valid() && hoveredPoint == None && animationOffset == 0
    {
      hoveredPoint := None;
      animationOffset := 0;
    }

    method AnimationTick()
      requires Valid()
      modifies this
      ensures Valid()
      ensures animationOffset == AnimationStep(old(animationOffset))
      ensures hoveredPoint == old(hoveredPoint)
    {
      animationOffset := AnimationStep(animationOffset);
    }

    /** onMouseEnter of a delivery point's triangle. */
    method MouseEnter(pointId: string)
      modifies this
      ensures hoveredPoint == Some(pointId) && animationOffset == old(animationOffset)
    {
      hoveredPoint := Some(pointId);
    }

    /** onMouseLeave of a delivery point's triangle. */
    method MouseLeave()
      modifies this
      ensures hoveredPoint == None && animationOffset == old(animationOffset)
    {
      hoveredPoint := None;
    }
  }
}
