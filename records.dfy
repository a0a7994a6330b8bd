/**
 * The order documents as the rest of the model sees them once JSON is decoded.
 * An order is a record of the keys the bookkeeping reads; a line item likewise.
 */
module Records {
  import opened Wrappers
  import opened Text

  /**
   * A JSON scalar under a key whose absence, null-ness, type or truthiness the
   * code depends on. `Absent` is a missing key.
   */
  datatype Field = Absent | Null | Str(s: string) | Int(i: int) {

    /** `str(d.get(key))`: a missing key and null both read as None. */
    function PyStr(): string
    {
      match this
      case Absent => "None"
      case Null => "None"
      case Str(s) => s
      case Int(i) => IntToString(i)
    }

    /** Python truthiness of the value. */
    predicate Truthy()
    {
      match this
      case Str(s) => s != ""
      case Int(i) => i != 0
      case _ => false
    }

    /** `d.get(key, default)`: the default replaces only a missing key. */
    function GetOr(default: Field): Field
    {
      if Absent? then default else this
    }
  }

  /** Python's `a or b`. */
  function Or(a: Field, b: Field): Field
  {
    if a.Truthy() then a else b
  }

  /**
   * One entry of `order_product`. `quantity` is None when the key is missing;
   * `collected` is None when the key is missing and otherwise the stored flag.
   */
  datatype LineItem = LineItem(
    name: string,
    barcode: string,
    stockCode: string,
    quantity: Option<int>,
    collected: Option<bool>)

  /** `int(item.get("quantity", 1))`. */
  function Quantity(item: LineItem): int
  {
    item.quantity.GetOr(1)
  }

  /** `item.get("collected", False)` is truthy. */
  predicate IsCollected(item: LineItem)
  {
    item.collected == Some(true)
  }

  /**
   * One order. `datetime` holds the result of parsing the order's
   * "%Y-%m-%d %H:%M:%S" timestamp, in seconds since a midnight, or None when
   * the key is missing or does not parse. `status` is `store_order_status`,
   * `statusName` is `store_order_status_name`, `entegration` the marketplace.
   */
  datatype Order = Order(
    no: Field,
    orderNumber: Field,
    orderNo: Field,
    id: Field,
    datetime: Option<int>,
    status: Field,
    statusName: string,
    entegration: string,
    cargoCompany: string,
    cargoCode: Field,
    products: seq<LineItem>)

  /** `str(order.get("no"))`, the key most handlers look orders up by. */
  function NoKey(o: Order): string
  {
    o.no.PyStr()
  }

  /**
   * A "%d.%m.%Y" date typed into a filter box: left blank, not a date, or the
   * midnight that starts the day, in seconds.
   */
  datatype DateArg = Blank | Unparsable | Day(t: int)

  const SecondsPerHour: int := 3600
  const SecondsPerDay: int := 86400

  /** `timedelta.days` of a span of seconds: rounded down, also when negative. */
  function WholeDays(seconds: int): int
  {
    seconds / SecondsPerDay
  }

  /** `datetime.hour` of a timestamp. */
  function HourOfDay(t: int): (h: int)
    ensures 0 <= h < 24
    ensures h * SecondsPerHour <= t % SecondsPerDay < (h + 1) * SecondsPerHour
  {
    (t % SecondsPerDay) / SecondsPerHour
  }
}
