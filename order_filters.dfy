/**
 * The list-comprehension filters the order views share: the "iptal" status
 * test, exact platform and cargo matches and inclusive date bounds. Each view
 * composes them in its own way (see Server, Server2 and Gui).
 */
module OrderFilters {
  import opened Wrappers
  import opened Text
  import opened Seqs
  import opened Records

  /** "iptal" occurs in the lower-cased status name. */
  predicate NameSaysIptal(o: Order)
  {
    Contains(Lower(o.statusName), "iptal")
  }

  /** `[o for o in orders if "iptal" not in status_name.lower()]`. */
  function NotIptal(orders: seq<Order>): (r: seq<Order>)
    ensures forall o :: o in r <==> o in orders && !NameSaysIptal(o)
    ensures IsSubseq(r, orders)
  {
    Filter(orders, (o: Order) => !NameSaysIptal(o))
  }

  /** `if platform != "TÜMÜ"`: keep the orders whose `entegration` is exactly `platform`. */
  function ByPlatform(orders: seq<Order>, platform: string): (r: seq<Order>)
    ensures forall o :: o in r <==> o in orders && (platform == "TÜMÜ" || o.entegration == platform)
    ensures IsSubseq(r, orders)
  {
    if platform == "TÜMÜ" then
      SubseqRefl(orders);
      orders
    else Filter(orders, (o: Order) => o.entegration == platform)
  }

  /** `if kargo != "TÜMÜ"`: keep the orders whose `cargo_company` is exactly `kargo`. */
  function ByCargo(orders: seq<Order>, kargo: string): (r: seq<Order>)
    ensures forall o :: o in r <==> o in orders && (kargo == "TÜMÜ" || o.cargoCompany == kargo)
    ensures IsSubseq(r, orders)
  {
    if kargo == "TÜMÜ" then
      SubseqRefl(orders);
      orders
    else Filter(orders, (o: Order) => o.cargoCompany == kargo)
  }

  /** Every order's timestamp parses, so a date comparison over the list raises nothing. */
  predicate AllDated(orders: seq<Order>)
  {
    forall o :: o in orders ==> o.datetime.Some?
  }

  /** Orders placed at or after `d` (the bound is inclusive). */
  function Since(orders: seq<Order>, d: int): (r: seq<Order>)
    ensures forall o :: o in r <==> o in orders && o.datetime.Some? && o.datetime.value >= d
    ensures IsSubseq(r, orders)
  {
    Filter(orders, (o: Order) => o.datetime.Some? && o.datetime.value >= d)
  }

  /** Orders placed at or before `d` (the bound is inclusive). */
  function Until(orders: seq<Order>, d: int): (r: seq<Order>)
    ensures forall o :: o in r <==> o in orders && o.datetime.Some? && o.datetime.value <= d
    ensures IsSubseq(r, orders)
  {
    Filter(orders, (o: Order) => o.datetime.Some? && o.datetime.value <= d)
  }

  /** The order lies within the bounds that were given. */
  predicate Within(o: Order, t1: DateArg, t2: DateArg)
  {
    && (t1.Day? ==> o.datetime.Some? && o.datetime.value >= t1.t)
    && (t2.Day? ==> o.datetime.Some? && o.datetime.value <= t2.t)
  }

  /**
   * Date bounds whose failures propagate: a bound that does not parse, or an
   * order whose timestamp does not parse while a bound applies, raises (None).
   */
  function RaisingBounds(orders: seq<Order>, t1: DateArg, t2: DateArg): (r: Option<seq<Order>>)
  {
    if t1.Unparsable? || t2.Unparsable? then None
    else if t1.Day? && !AllDated(orders) then None
    else
      var s := if t1.Day? then Since(orders, t1.t) else orders;
      if t2.Day? && !AllDated(s) then None
      else Some(if t2.Day? then Until(s, t2.t) else s)
  }

  /**
   * When the bounds apply they filter exactly by `Within`, keeping the order
   * of the list; they raise exactly when a bound does not parse or an order
   * without a parsable timestamp meets a bound.
   */
  lemma RaisingBoundsSpec(orders: seq<Order>, t1: DateArg, t2: DateArg)
    ensures RaisingBounds(orders, t1, t2).None? <==>
      t1.Unparsable? || t2.Unparsable? || ((t1.Day? || t2.Day?) && !AllDated(orders))
    ensures RaisingBounds(orders, t1, t2).Some? ==>
      IsSubseq(RaisingBounds(orders, t1, t2).value, orders) &&
      forall o :: o in RaisingBounds(orders, t1, t2).value <==> o in orders && Within(o, t1, t2)
  {
    if !t1.Unparsable? && !t2.Unparsable? && !(t1.Day? && !AllDated(orders)) {
      var s := if t1.Day? then Since(orders, t1.t) else orders;
      if t1.Day? {
        assert AllDated(s);
      } else {
        SubseqRefl(orders);
      }
      if t2.Day? {
        SubseqTransitive(Until(s, t2.t), s, orders);
      }
    }
  }
}
