/** The dashboard page: its built-in sample data, the four delivery counters shown in
    the metric cards, and the selected-CD state it shares with the route diagram. The
    page renders its own sample collections; it does not read the data loader. */
module Dashboard {
  import opened Wrappers
  import opened Entities
  import RouteVisualization

  const MockCds: seq<CD> := [
    CD("cd1", "CD São Paulo", Point(200.0, 150.0), Active, 1000, 850),
    CD("cd2", "CD Rio de Janeiro", Point(600.0, 250.0), Active, 800, 600),
    CD("cd3", "CD Belo Horizonte", Point(400.0, 100.0), Active, 600, 450)
  ]

  const MockDeliveryPoints: seq<DeliveryPoint> := [
    DeliveryPoint("dp1", "Centro SP", Point(120.0, 120.0), Delivered, "cd1", High),
    DeliveryPoint("dp2", "Vila Madalena", Point(160.0, 200.0), InTransit, "cd1", Medium),
    DeliveryPoint("dp3", "Zona Sul", Point(80.0, 180.0), Pending, "cd1", Low),
    DeliveryPoint("dp4", "Copacabana", Point(680.0, 220.0), Pending, "cd2", High),
    DeliveryPoint("dp5", "Ipanema", Point(650.0, 300.0), InTransit, "cd2", Medium),
    DeliveryPoint("dp6", "Tijuca", Point(720.0, 280.0), Delivered, "cd2", Low),
    DeliveryPoint("dp7", "Savassi BH", Point(360.0, 60.0), Delivered, "cd3", Medium),
    DeliveryPoint("dp8", "Centro BH", Point(440.0, 50.0), Pending, "cd3", High),
    DeliveryPoint("dp9", "Pampulha", Point(380.0, 140.0), InTransit, "cd3", Medium)
  ]

  /** deliveryPoints.filter(dp => dp.status === status): the points with that status,
      in their original order. */
  function WithStatus(points: seq<DeliveryPoint>, status: DeliveryStatus): (r: seq<DeliveryPoint>)
    ensures |r| <= |points|
    ensures forall k :: 0 <= k < |r| ==> r[k].status == status
    decreases |points|
  {
    if points == [] then []
    else
      var rest := WithStatus(points[1..], status);
      if points[0].status == status then [points[0]] + rest else rest
  }

  /** The filter keeps exactly the points with the requested status. */
  lemma {:induction false} WithStatusKeepsExactly(points: seq<DeliveryPoint>, status: DeliveryStatus, p: DeliveryPoint)
    ensures p in WithStatus(points, status) <==> p in points && p.status == status
    decreases |points|
  {
    if points != [] {
      WithStatusKeepsExactly(points[1..], status, p);
      assert p in points <==> p == points[0] || p in points[1..];
    }
  }

  /** The filter keeps every point with the requested status as many times as it occurs
      and drops every other point, so its length is the number of such points. */
  lemma {:induction false} WithStatusCounts(points: seq<DeliveryPoint>, status: DeliveryStatus)
    ensures forall p ::
      multiset(WithStatus(points, status))[p] == (if p.status == status then multiset(points)[p] else 0)
    decreases |points|
  {
    if points != [] {
      WithStatusCounts(points[1..], status);
      assert points == [points[0]] + points[1..];
    }
  }

  /** The four numbers of the metric cards. */
  datatype Metrics = Metrics(totalDeliveries: nat, completedDeliveries: nat, inTransit: nat, pending: nat)

  /** Every delivery point has exactly one of the three statuses, so the three filtered
      lists together are as long as the whole list. */
  lemma {:induction false} StatusesPartition(points: seq<DeliveryPoint>)
    ensures |WithStatus(points, Delivered)| + |WithStatus(points, InTransit)| + |WithStatus(points, Pending)| == |points|
    decreases |points|
  {
    if points != [] {
      StatusesPartition(points[1..]);
    }
  }

  /** Lines 48-51, with the counters' relation to each other. */
  function ComputeMetrics(points: seq<DeliveryPoint>): (m: Metrics)
    ensures m.totalDeliveries == |points|
    ensures m.completedDeliveries == |WithStatus(points, Delivered)|
    ensures m.inTransit == |WithStatus(points, InTransit)|
    ensures m.pending == |WithStatus(points, Pending)|
    ensures m.completedDeliveries <= m.totalDeliveries
    ensures m.inTransit <= m.totalDeliveries
    ensures m.pending <= m.totalDeliveries
    ensures m.completedDeliveries + m.inTransit + m.pending == m.totalDeliveries
  {
    StatusesPartition(points);
    Metrics(|points|, |WithStatus(points, Delivered)|, |WithStatus(points, InTransit)|, |WithStatus(points, Pending)|)
  }

  /** In the sample data every delivery point is assigned to an existing CD and the CD
      ids are pairwise distinct. */
  lemma MockDataConsistent()
    ensures forall i, j :: 0 <= i < j < |MockCds| ==> MockCds[i].id != MockCds[j].id
    ensures forall k :: 0 <= k < |MockDeliveryPoints| ==>
      exists i :: 0 <= i < |MockCds| && MockCds[i].id == MockDeliveryPoints[k].assignedCD
  {
    assert MockCds[0].id[2] == '1' && MockCds[1].id[2] == '2' && MockCds[2].id[2] == '3';
    forall k | 0 <= k < |MockDeliveryPoints|
      ensures exists i :: 0 <= i < |MockCds| && MockCds[i].id == MockDeliveryPoints[k].assignedCD
    {
      var i := k / 3;
      assert MockCds[i].id == MockDeliveryPoints[k].assignedCD;
    }
  }

  /** Removing the first point of a suffix lowers the count of its status by one and
      leaves the other counts as they were. */
  lemma SuffixStep(points: seq<DeliveryPoint>, i: nat)
    requires i < |points|
    ensures var here, next := points[i..], points[i + 1..];
      var st := points[i].status;
      && |WithStatus(here, Delivered)| == (if st == Delivered then 1 else 0) + |WithStatus(next, Delivered)|
      && |WithStatus(here, InTransit)| == (if st == InTransit then 1 else 0) + |WithStatus(next, InTransit)|
      && |WithStatus(here, Pending)| == (if st == Pending then 1 else 0) + |WithStatus(next, Pending)|
  {
    assert points[i..][1..] == points[i + 1..];
  }

  /** Nine points with the sample's statuses, in the sample's order, give three of each. */
  lemma SampleStatusPatternCounts(points: seq<DeliveryPoint>)
    requires |points| == 9
    requires points[0].status == Delivered && points[1].status == InTransit && points[2].status == Pending
    requires points[3].status == Pending && points[4].status == InTransit && points[5].status == Delivered
    requires points[6].status == Delivered && points[7].status == Pending && points[8].status == InTransit
    ensures ComputeMetrics(points) == Metrics(9, 3, 3, 3)
  {
    assert points[9..] == [];
    SuffixStep(points, 8); SuffixStep(points, 7); SuffixStep(points, 6);
    SuffixStep(points, 5); SuffixStep(points, 4); SuffixStep(points, 3);
    SuffixStep(points, 2); SuffixStep(points, 1); SuffixStep(points, 0);
    assert points[0..] == points;
  }

  /** The sample data shows nine deliveries, three of each status. */
  lemma MockMetrics()
    ensures ComputeMetrics(MockDeliveryPoints) == Metrics(9, 3, 3, 3)
  {
    SampleStatusPatternCounts(MockDeliveryPoints);
  }

  /** On the sample data the diagram draws all three inter-CD routes and a route to
      every delivery point. */
  lemma MockRoutesAllDrawn()
    ensures |RouteVisualization.InterCdRoutes(MockCds)| == 3
    ensures |RouteVisualization.DeliveryRoutes(MockCds, MockDeliveryPoints)| == |MockDeliveryPoints|
  {
    MockDataConsistent();
    var c := RouteVisualization.FixedConnections;
    forall k | 0 <= k < |c|
      ensures RouteVisualization.FindCd(MockCds, c[k].from).Some?
      ensures RouteVisualization.FindCd(MockCds, c[k].to).Some?
    {
      assert MockCds[0].id == "cd1" && MockCds[1].id == "cd2" && MockCds[2].id == "cd3";
    }
    RouteVisualization.CdRoutesAllDrawn(MockCds, c);
    RouteVisualization.DeliveryRoutesAllDrawn(MockCds, MockDeliveryPoints);
  }

  /** The page's selected-CD state. */
  class DashboardView {
    var selectedCd: Option<string>

    constructor ()
      ensures selectedCd == None
    {
      selectedCd := None;
    }

    /** setSelectedCD, handed to the diagram as onCDSelect. */
    method SelectCd(cdId: Option<string>)
      modifies this
      ensures selectedCd == cdId
    {
      selectedCd := cdId;
    }

    /** Line 161: a click on a CD entry of the sidebar. */
    method SidebarCdClicked(cdId: string)
      modifies this
      ensures selectedCd == RouteVisualization.ClickSelection(old(selectedCd), cdId)
      ensures old(selectedCd) == Some(cdId) ==> selectedCd == None
      ensures old(selectedCd) != Some(cdId) ==> selectedCd == Some(cdId)
    {
      selectedCd := RouteVisualization.ClickSelection(selectedCd, cdId);
    }

    /** A click on a CD circle of the diagram: its handler passes the toggled value to
        onCDSelect (RouteVisualization.tsx line 253). */
    method MapCdClicked(cdId: string)
      modifies this
      ensures selectedCd == RouteVisualization.ClickSelection(old(selectedCd), cdId)
    {
      var isSelected := selectedCd == Some(cdId);
      SelectCd(if isSelected then None else Some(cdId));
    }
  }
}
