/** The records the dashboard works with: distribution centres (CDs), delivery points
    and the connections between CDs. The same three interfaces are declared in the data
    loader hook and in both components. */
module Entities {

  /** A position on the 800 x 500 logical canvas. */
  datatype Point = Point(x: real, y: real)

  datatype CdStatus = Active | Inactive

  datatype CD = CD(
    id: string,
    name: string,
    location: Point,
    status: CdStatus,
    capacity: int,
    currentLoad: int)

  datatype DeliveryStatus = Pending | InTransit | Delivered

  datatype Priority = Low | Medium | High

  datatype DeliveryPoint = DeliveryPoint(
    id: string,
    name: string,
    location: Point,
    status: DeliveryStatus,
    assignedCD: string,
    priority: Priority)

  datatype Connection = Connection(from: string, to: string, status: CdStatus)

  /** The string a delivery status has in the JSON data and in the markup. */
  function StatusName(s: DeliveryStatus): (name: string)
    ensures name == "pending" <==> s == Pending
    ensures name == "in_transit" <==> s == InTransit
    ensures name == "delivered" <==> s == Delivered
  {
    match s
    case Pending => "pending"
    case InTransit => "in_transit"
    case Delivered => "delivered"
  }

  /** The string a priority has in the JSON data and in the markup. */
  function PriorityName(p: Priority): (name: string)
    ensures name == "low" <==> p == Low
    ensures name == "medium" <==> p == Medium
    ensures name == "high" <==> p == High
  {
    match p
    case Low => "low"
    case Medium => "medium"
    case High => "high"
  }
}
