/**
 * The files the bookkeeping reads and rewrites wholesale: the order store
 * (output.json), the done list (done_orders.json), the archive (archive.json)
 * and the location registry (locations.csv).
 */
module Storage {
  import opened Wrappers
  import opened Records

  /** done_orders.json: missing, present but unreadable (or without "orders"), or its id list. */
  datatype DoneFile = Missing | Unreadable | Ids(ids: seq<string>)

  class Disk {
    /** The order list of output.json; None when the file is missing or unreadable. */
    var output: Option<seq<Order>>
    var done: DoneFile
    /** The order list of archive.json. */
    var archive: Option<seq<Order>>
    /** The rows of locations.csv as the csv module reads them; [] when missing. */
    var locations: seq<seq<string>>

    constructor (output: Option<seq<Order>>, done: DoneFile, archive: Option<seq<Order>>, locations: seq<seq<string>>)
      ensures this.output == output && this.done == done
      ensures this.archive == archive && this.locations == locations
    {
      this.output := output;
      this.done := done;
      this.archive := archive;
      this.locations := locations;
    }

    /** `read_orders`: the stored list, or [] whenever the file cannot be read. */
    function Orders(): (orders: seq<Order>)
      reads this
      ensures output.None? ==> orders == []
      ensures output.Some? ==> orders == output.value
    {
      output.GetOr([])
    }

    /** `save_orders_to_json`: the store becomes exactly `orders`; nothing else changes. */
    method SaveOrders(orders: seq<Order>)
      modifies this
      ensures output == Some(orders) && Orders() == orders
      ensures done == old(done) && archive == old(archive) && locations == old(locations)
    {
      output := Some(orders);
    }
  }
}
