/**
 * main.py: the desktop window. Its order cards use their own status buckets
 * (which also treat status "-1" as cancelled), show only orders with some
 * collected line, one card per order number; its check boxes, cancel and
 * print buttons rewrite the store.
 */
module Gui {
  import opened Wrappers
  import opened Text
  import opened Seqs
  import opened Records
  import opened Storage
  import opened Utils
  import opened OrderFilters
  import opened StoreEdits

  // ------------------------------------------------------------------ status buckets

  /** The keyword lists of the window's named buckets. */
  const BucketMap: map<string, seq<string>> := map[
    "Depodaki Siparişler" := ["Depoda", "Depodaki Siparişler"],
    "Devam Eden Siparişler" := ["Devam Ediyor", "Hazırlanıyor"],
    "Kargoya Verilecek Siparişler" := ["Kargoya Verilecek", "Kargoya Verildi"],
    "Tamamlanan Siparişler" := ["Teslim Edildi", "Tamamlandı", "Tamamlanan"]
  ]

  const IptalBucket: string := "İptal Edilen Siparişler"

  /** `durum_map.get(f_durum, [])`. */
  function BucketWords(durum: string): (words: seq<string>)
    ensures durum !in BucketMap ==> words == []
  {
    if durum in BucketMap then BucketMap[durum] else []
  }

  /** `str(o.get("store_order_status", "")).strip() == "-1"`. */
  predicate StatusIsMinusOne(o: Order)
  {
    Strip(o.status.GetOr(Str("")).PyStr()) == "-1"
  }

  /** `is_iptal`: the name says "iptal" or the status is "-1". */
  predicate IsIptal(o: Order)
  {
    NameSaysIptal(o) || StatusIsMinusOne(o)
  }

  /** Some keyword of the bucket occurs, case-insensitively, in the status name. */
  predicate NamesBucket(durum: string, o: Order)
  {
    exists k :: k in BucketWords(durum) && Contains(Lower(o.statusName), Lower(k))
  }

  /** The status test of `refresh_cards`. */
  predicate BucketKeeps(durum: string, o: Order)
  {
    if durum == "TÜMÜ" then !IsIptal(o)
    else if durum == IptalBucket then IsIptal(o)
    else NamesBucket(durum, o) && !IsIptal(o)
  }

  function ByBucket(orders: seq<Order>, durum: string): (r: seq<Order>)
    ensures forall o :: o in r <==> o in orders && BucketKeeps(durum, o)
    ensures IsSubseq(r, orders)
  {
    Filter(orders, (o: Order) => BucketKeeps(durum, o))
  }

  /**
   * The window's own cancel makes an order cancelled in its eyes: it leaves
   * "TÜMÜ" and every named bucket and shows under the cancelled bucket.
   */
  lemma CancelledOrderMoves(o: Order, durum: string)
    ensures IsIptal(WithStatus(o, Str("-1"), CancelledName))
    ensures BucketKeeps(durum, WithStatus(o, Str("-1"), CancelledName)) <==> durum == IptalBucket
  {
    StripStripped("-1");
  }

  // ------------------------------------------------------------------ cards

  /** `any(u.get("collected", False) for u in o["order_product"])`. */
  predicate AnyCollected(o: Order)
  {
    exists i :: 0 <= i < |o.products| && IsCollected(o.products[i])
  }

  /** The tests `refresh_cards` applies to one order, dates aside. */
  predicate CardKeeps(o: Order, durum: string, platform: string, kargo: string)
  {
    && BucketKeeps(durum, o)
    && (platform == "TÜMÜ" || o.entegration == platform)
    && (kargo == "TÜMÜ" || o.cargoCompany == kargo)
  }

  /**
   * The filters of `refresh_cards`: bucket, platform, cargo, the two dates
   * (which raise, None, on a date that does not parse), then orders with a
   * collected line.
   */
  function CardsFilter(orders: seq<Order>, durum: string, platform: string, kargo: string,
                       t1: DateArg, t2: DateArg): Option<seq<Order>>
  {
    var dated := RaisingBounds(ByCargo(ByPlatform(ByBucket(orders, durum), platform), kargo), t1, t2);
    if dated.None? then None else Some(Filter(dated.value, AnyCollected))
  }

  /**
   * The window fails to refresh exactly when a date does not parse or a date
   * meets a kept order without a timestamp; otherwise it keeps, in stored
   * order, exactly the orders that pass every test and have a collected line.
   */
  lemma CardsFilterSpec(orders: seq<Order>, durum: string, platform: string, kargo: string,
                        t1: DateArg, t2: DateArg)
    ensures CardsFilter(orders, durum, platform, kargo, t1, t2).None? <==>
      (|| t1.Unparsable? || t2.Unparsable?
       || ((t1.Day? || t2.Day?) &&
           exists o :: o in orders && CardKeeps(o, durum, platform, kargo) && o.datetime.None?))
    ensures var r := CardsFilter(orders, durum, platform, kargo, t1, t2);
      r.Some? ==> (IsSubseq(r.value, orders) &&
        forall o :: o in r.value <==>
          o in orders && CardKeeps(o, durum, platform, kargo) && Within(o, t1, t2) && AnyCollected(o))
  {
    var b := ByBucket(orders, durum);
    var p := ByPlatform(b, platform);
    var c := ByCargo(p, kargo);
    SubseqTransitive(p, b, orders);
    SubseqTransitive(c, p, orders);
    assert forall o :: o in c <==> o in orders && CardKeeps(o, durum, platform, kargo);
    RaisingBoundsSpec(c, t1, t2);
    var dated := RaisingBounds(c, t1, t2);
    if dated.Some? {
      SubseqTransitive(dated.value, c, orders);
      SubseqTransitive(Filter(dated.value, AnyCollected), dated.value, orders);
    }
  }

  /** A status the window does not know lists nothing. */
  lemma UnknownBucketEmpty(orders: seq<Order>, durum: string)
    requires durum != "TÜMÜ" && durum != IptalBucket && durum !in BucketMap
    ensures ByBucket(orders, durum) == []
  {
    var r := ByBucket(orders, durum);
    assert forall i :: 0 <= i < |r| ==> r[i] in r;
    assert forall i :: 0 <= i < |r| ==> !BucketKeeps(durum, r[i]);
  }

  // ------------------------------------------------------------------ one card per number

  function NoKeys(orders: seq<Order>): set<string>
  {
    set o | o in orders :: NoKey(o)
  }

  lemma NoKeysSnoc(orders: seq<Order>, o: Order)
    ensures NoKeys(orders + [o]) == NoKeys(orders) + {NoKey(o)}
  {
    assert forall p :: p in orders + [o] <==> p in orders || p == o;
  }

  /** The orders kept by the `seen` loop: each one whose number no earlier order had. */
  function FirstByNo(orders: seq<Order>): seq<Order>
    decreases |orders|
  {
    if orders == [] then []
    else
      var init := orders[..|orders| - 1];
      var o := orders[|orders| - 1];
      if NoKey(o) in NoKeys(init) then FirstByNo(init) else FirstByNo(init) + [o]
  }

  /** The first order numbered `key` in a list is still the first once more orders follow. */
  lemma FirstWithNoSnoc(orders: seq<Order>, o: Order, key: string)
    ensures FirstWithNo(orders, key) >= 0 ==> FirstWithNo(orders + [o], key) == FirstWithNo(orders, key)
    ensures FirstWithNo(orders, key) < 0 && NoKey(o) == key ==> FirstWithNo(orders + [o], key) == |orders|
  {
    var s := orders + [o];
    var k := FirstWithNo(orders, key);
    var m := FirstWithNo(s, key);
    assert forall j :: 0 <= j < |orders| ==> s[j] == orders[j];
    if k >= 0 {
      assert NoKey(s[k]) == key;
    }
    if k < 0 && NoKey(o) == key {
      assert NoKey(s[|orders|]) == key;
    }
  }

  /** De-duplication keeps a sub-list of the orders. */
  lemma {:induction false} FirstByNoSubseq(orders: seq<Order>)
    ensures IsSubseq(FirstByNo(orders), orders)
    decreases |orders|
  {
    if orders != [] {
      var init := orders[..|orders| - 1];
      var o := orders[|orders| - 1];
      assert orders == init + [o];
      FirstByNoSubseq(init);
      if NoKey(o) in NoKeys(init) {
        SubseqSkip(FirstByNo(init), init, o);
      } else {
        SubseqKeep(FirstByNo(init), init, o);
      }
    }
  }

  /** De-duplication leaves one order per number and loses no number. */
  lemma {:induction false} FirstByNoKeys(orders: seq<Order>)
    ensures forall i, j :: 0 <= i < j < |FirstByNo(orders)| ==> NoKey(FirstByNo(orders)[i]) != NoKey(FirstByNo(orders)[j])
    ensures NoKeys(FirstByNo(orders)) == NoKeys(orders)
    decreases |orders|
  {
    if orders == [] {
      assert NoKeys([]) == {};
    } else {
      var init := orders[..|orders| - 1];
      var o := orders[|orders| - 1];
      assert orders == init + [o];
      FirstByNoKeys(init);
      NoKeysSnoc(init, o);
      var d := FirstByNo(init);
      if NoKey(o) !in NoKeys(init) {
        NoKeysSnoc(d, o);
        assert forall i :: 0 <= i < |d| ==> d[i] in d;
      }
    }
  }

  /** Each order de-duplication keeps is the first order that carried its number. */
  lemma {:induction false} FirstByNoKeepsFirst(orders: seq<Order>)
    ensures forall o :: o in FirstByNo(orders) ==>
      FirstWithNo(orders, NoKey(o)) >= 0 && o == orders[FirstWithNo(orders, NoKey(o))]
    decreases |orders|
  {
    if orders != [] {
      var init := orders[..|orders| - 1];
      var o := orders[|orders| - 1];
      assert orders == init + [o];
      FirstByNoKeepsFirst(init);
      var d := FirstByNo(init);
      forall p | p in d
        ensures FirstWithNo(orders, NoKey(p)) == FirstWithNo(init, NoKey(p))
      {
        FirstWithNoSnoc(init, o, NoKey(p));
      }
      if NoKey(o) !in NoKeys(init) {
        FirstWithNoSnoc(init, o, NoKey(o));
        assert FirstWithNo(init, NoKey(o)) < 0;
      }
    }
  }

  /** The `seen` loop of `refresh_cards`. */
  method Dedupe(orders: seq<Order>) returns (unique: seq<Order>)
    ensures unique == FirstByNo(orders)
  {
    var seen: set<string> := {};
    unique := [];
    for i := 0 to |orders|
      invariant unique == FirstByNo(orders[..i])
      invariant seen == NoKeys(orders[..i])
    {
      var o := orders[i];
      DedupeStep(orders, i);
      var no := NoKey(o);
      if no !in seen {
        unique := unique + [o];
        seen := seen + {no};
      }
    }
    assert orders[..|orders|] == orders;
  }

  /** One more order through the `seen` loop. */
  lemma DedupeStep(orders: seq<Order>, i: int)
    requires 0 <= i < |orders|
    ensures NoKeys(orders[..i + 1]) == NoKeys(orders[..i]) + {NoKey(orders[i])}
    ensures FirstByNo(orders[..i + 1]) ==
      if NoKey(orders[i]) in NoKeys(orders[..i]) then FirstByNo(orders[..i]) else FirstByNo(orders[..i]) + [orders[i]]
  {
    assert orders[..i + 1][..i] == orders[..i];
    NoKeysSnoc(orders[..i], orders[i]);
    assert orders[..i] + [orders[i]] == orders[..i + 1];
  }

  /** `refresh_cards` on what the store holds: the filtered orders, one per number. */
  method RefreshCards(disk: Disk, durum: string, platform: string, kargo: string, t1: DateArg, t2: DateArg)
    returns (cards: Option<seq<Order>>)
    ensures cards.None? <==> CardsFilter(disk.Orders(), durum, platform, kargo, t1, t2).None?
    ensures cards.Some? ==> cards.value == FirstByNo(CardsFilter(disk.Orders(), durum, platform, kargo, t1, t2).value)
  {
    var filtered := CardsFilter(disk.Orders(), durum, platform, kargo, t1, t2);
    if filtered.None? {
      return None;
    }
    var unique := Dedupe(filtered.value);
    return Some(unique);
  }

  // ------------------------------------------------------------------ check boxes

  /**
   * `depo_urun_set_collected`: every item with the barcode is set, and the
   * list is written back unconditionally; a store that could not be read is
   * overwritten with an empty list.
   */
  method SetCollected(disk: Disk, barcode: string, value: bool)
    modifies disk
    ensures disk.output == Some(MarkAll(old(disk.Orders()), barcode, value))
    ensures old(disk.output).None? ==> disk.output == Some([])
    ensures disk.done == old(disk.done) && disk.archive == old(disk.archive) && disk.locations == old(disk.locations)
  {
    var updated, _ := MarkOrders(disk.Orders(), barcode, value);
    disk.SaveOrders(updated);
  }

  /**
   * `cb_update` of the order pop-up: as above with the line's own barcode; a
   * line stored without a barcode matches nothing, yet the list is saved.
   */
  method CheckboxUpdate(disk: Disk, barcode: Option<string>, ticked: bool)
    modifies disk
    ensures barcode.Some? ==> disk.output == Some(MarkAll(old(disk.Orders()), barcode.value, ticked))
    ensures barcode.None? ==> disk.output == Some(old(disk.Orders()))
    ensures disk.done == old(disk.done) && disk.archive == old(disk.archive) && disk.locations == old(disk.locations)
  {
    if barcode.Some? {
      SetCollected(disk, barcode.value, ticked);
    } else {
      disk.SaveOrders(disk.Orders());
    }
  }

  // ------------------------------------------------------------------ cancel and print

  /**
   * `iptal_et`: every order numbered like `order` gets status "-1",
   * "İptal Edildi", and the list is written back; each of them is then
   * cancelled in the window's eyes.
   */
  method IptalEt(disk: Disk, order: Order)
    modifies disk
    ensures disk.output == Some(SetStatusAll(old(disk.Orders()), NoKey(order), Str("-1"), CancelledName))
    ensures forall o :: o in disk.Orders() && NoKey(o) == NoKey(order) ==> IsIptal(o)
    ensures disk.done == old(disk.done) && disk.archive == old(disk.archive) && disk.locations == old(disk.locations)
  {
    var before := disk.Orders();
    var updated := RewriteAllStatus(before, NoKey(order), Str("-1"), CancelledName);
    disk.SaveOrders(updated);
    forall o | o in updated && NoKey(o) == NoKey(order)
      ensures IsIptal(o)
    {
      var i :| 0 <= i < |updated| && updated[i] == o;
      CancelledOrderMoves(before[i], "TÜMÜ");
    }
  }

  /** `all(v.get() for v in urun_vars)`. */
  predicate AllTicked(ticks: seq<bool>)
  {
    forall i :: 0 <= i < |ticks| ==> ticks[i]
  }

  /**
   * `try_print_invoice`: only with every line ticked; the invoice is printed
   * (`printOk` says whether printing succeeded), then the order removed from
   * the store and its number added to the done list. Any failure ends the
   * sequence there.
   */
  method TryPrintInvoice(disk: Disk, order: Order, ticks: seq<bool>, printOk: bool) returns (printed: bool)
    modifies disk
    ensures printed <==> AllTicked(ticks) && printOk
    ensures !printed || old(disk.output).None? ==> disk.output == old(disk.output) && disk.done == old(disk.done)
    ensures printed && old(disk.output).Some? ==> disk.Orders() == Remove(old(disk.Orders()), NoKey(order))
    ensures printed && old(disk.output).Some? && old(disk.done).Missing? ==> disk.done == Ids([NoKey(order)])
    ensures printed && old(disk.output).Some? && old(disk.done).Ids? ==>
      disk.done == Ids(AddDone(old(disk.done).ids, NoKey(order)))
    ensures old(disk.done).Unreadable? ==> disk.done == old(disk.done)
    ensures disk.archive == old(disk.archive) && disk.locations == old(disk.locations)
  {
    if !AllTicked(ticks) || !printOk {
      return false;
    }
    ghost var before := disk.Orders();
    var raised := DeleteOrder(disk, order.no);
    if !raised {
      if !AnyMatch(before, NoKey(order)) {
        RemoveNothing(before, NoKey(order));
      }
      raised := AddToDoneOrders(disk, order.no);
    }
    return true;
  }
}
