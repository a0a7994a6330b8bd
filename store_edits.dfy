/**
 * The in-place edits the front ends make to the stored order list: ticking
 * the `collected` flag of line items by barcode, and rewriting an order's
 * status pair. Each edit is a loop over the decoded list; the functions here
 * say what list it leaves.
 */
module StoreEdits {
  import opened Wrappers
  import opened Text
  import opened Records
  import opened Storage

  /** A toggle form's `value`: true iff it reads "true", "1", "on" or "yes" in lower case. */
  predicate ToggleValue(value: string)
  {
    Lower(value) in {"true", "1", "on", "yes"}
  }

  /** The accepted spellings do not depend on case. */
  lemma ToggleValueIgnoresCase(value: string)
    ensures ToggleValue(Lower(value)) == ToggleValue(value)
    ensures ToggleValue(value) ==> 1 <= |value| <= 4
  {
    LowerIdempotent(value);
  }

  // ------------------------------------------------------------------ collected flags

  /** The item after `if barcode matches: u["collected"] = value`. */
  function MarkItem(u: LineItem, barcode: string, value: bool): LineItem
  {
    if u.barcode == barcode then u.(collected := Some(value)) else u
  }

  function MarkItems(items: seq<LineItem>, barcode: string, value: bool): (r: seq<LineItem>)
    ensures |r| == |items|
    ensures forall i :: 0 <= i < |r| ==> r[i] == MarkItem(items[i], barcode, value)
  {
    seq(|items|, i requires 0 <= i < |items| => MarkItem(items[i], barcode, value))
  }

  function MarkOrder(o: Order, barcode: string, value: bool): Order
  {
    o.(products := MarkItems(o.products, barcode, value))
  }

  /** Every item of every order carrying `barcode` gets `collected = value`. */
  function MarkAll(orders: seq<Order>, barcode: string, value: bool): (r: seq<Order>)
    ensures |r| == |orders|
    ensures forall i :: 0 <= i < |r| ==> r[i] == MarkOrder(orders[i], barcode, value)
  {
    seq(|orders|, i requires 0 <= i < |orders| => MarkOrder(orders[i], barcode, value))
  }

  /** `u.get("collected") != value` for an item the toggle addresses. */
  predicate Differs(u: LineItem, barcode: string, value: bool)
  {
    u.barcode == barcode && u.collected != Some(value)
  }

  predicate ItemsDiffer(items: seq<LineItem>, barcode: string, value: bool)
  {
    exists i :: 0 <= i < |items| && Differs(items[i], barcode, value)
  }

  predicate AnyDiffers(orders: seq<Order>, barcode: string, value: bool)
  {
    exists i :: 0 <= i < |orders| && ItemsDiffer(orders[i].products, barcode, value)
  }

  /** Marking changes the items exactly when some addressed item held another value. */
  lemma MarkItemsChanges(items: seq<LineItem>, barcode: string, value: bool)
    ensures MarkItems(items, barcode, value) != items <==> ItemsDiffer(items, barcode, value)
  {
    var r := MarkItems(items, barcode, value);
    if ItemsDiffer(items, barcode, value) {
      var i :| 0 <= i < |items| && Differs(items[i], barcode, value);
      assert r[i].collected != items[i].collected;
    } else {
      forall i | 0 <= i < |items|
        ensures r[i] == items[i]
      {
        assert !Differs(items[i], barcode, value);
      }
    }
  }

  /** Marking changes the list exactly when some addressed item held another value. */
  lemma MarkAllChanges(orders: seq<Order>, barcode: string, value: bool)
    ensures MarkAll(orders, barcode, value) != orders <==> AnyDiffers(orders, barcode, value)
  {
    var r := MarkAll(orders, barcode, value);
    if AnyDiffers(orders, barcode, value) {
      var i :| 0 <= i < |orders| && ItemsDiffer(orders[i].products, barcode, value);
      MarkItemsChanges(orders[i].products, barcode, value);
      assert r[i].products != orders[i].products;
    } else {
      forall i | 0 <= i < |orders|
        ensures r[i] == orders[i]
      {
        MarkItemsChanges(orders[i].products, barcode, value);
      }
    }
  }

  /** After marking, no addressed item differs: marking twice is marking once. */
  lemma MarkAllIdempotent(orders: seq<Order>, barcode: string, value: bool)
    ensures !AnyDiffers(MarkAll(orders, barcode, value), barcode, value)
    ensures MarkAll(MarkAll(orders, barcode, value), barcode, value) == MarkAll(orders, barcode, value)
  {
    var r := MarkAll(orders, barcode, value);
    forall i, j | 0 <= i < |r| && 0 <= j < |r[i].products|
      ensures !Differs(r[i].products[j], barcode, value)
    {
      assert r[i].products[j] == MarkItem(orders[i].products[j], barcode, value);
    }
    MarkAllChanges(r, barcode, value);
  }

  /** The inner loop over one order's items: the marked items and whether one changed. */
  method MarkLines(items: seq<LineItem>, barcode: string, value: bool) returns (marked: seq<LineItem>, changed: bool)
    ensures marked == MarkItems(items, barcode, value)
    ensures changed <==> ItemsDiffer(items, barcode, value)
  {
    marked, changed := items, false;
    for j := 0 to |items|
      invariant |marked| == |items|
      invariant forall k :: 0 <= k < j ==> marked[k] == MarkItem(items[k], barcode, value)
      invariant forall k :: j <= k < |items| ==> marked[k] == items[k]
      invariant changed <==> exists k :: 0 <= k < j && Differs(items[k], barcode, value)
    {
      if items[j].barcode == barcode {
        if items[j].collected != Some(value) {
          marked := marked[j := items[j].(collected := Some(value))];
          changed := true;
        }
      }
    }
  }

  /** The nested loops of the barcode toggles over the whole list. */
  method MarkOrders(orders: seq<Order>, barcode: string, value: bool) returns (updated: seq<Order>, changed: bool)
    ensures updated == MarkAll(orders, barcode, value)
    ensures changed <==> AnyDiffers(orders, barcode, value)
  {
    updated, changed := orders, false;
    for i := 0 to |orders|
      invariant |updated| == |orders|
      invariant forall k :: 0 <= k < i ==> updated[k] == MarkOrder(orders[k], barcode, value)
      invariant forall k :: i <= k < |orders| ==> updated[k] == orders[k]
      invariant changed <==> exists k :: 0 <= k < i && ItemsDiffer(orders[k].products, barcode, value)
    {
      var marked, c := MarkLines(orders[i].products, barcode, value);
      updated := updated[i := orders[i].(products := marked)];
      changed := changed || c;
    }
  }

  /**
   * `_toggle_collected_by_barcode` of the first server: mark every matching
   * item and rewrite the store only when some flag changed. Either way the
   * store then reads as the marked list.
   */
  method ToggleCollected(disk: Disk, barcode: string, value: bool) returns (changed: bool)
    modifies disk
    ensures changed <==> AnyDiffers(old(disk.Orders()), barcode, value)
    ensures changed ==> disk.output == Some(MarkAll(old(disk.Orders()), barcode, value))
    ensures !changed ==> disk.output == old(disk.output)
    ensures disk.Orders() == MarkAll(old(disk.Orders()), barcode, value)
    ensures disk.done == old(disk.done) && disk.archive == old(disk.archive) && disk.locations == old(disk.locations)
  {
    var updated;
    updated, changed := MarkOrders(disk.Orders(), barcode, value);
    MarkAllChanges(disk.Orders(), barcode, value);
    if changed {
      disk.SaveOrders(updated);
    }
  }

  // ------------------------------------------------------------------ one order's lines

  /** The index of the first order whose `str(no)` is `key`, or -1. */
  function FirstWithNo(orders: seq<Order>, key: string): (k: int)
    ensures -1 <= k < |orders|
    ensures k >= 0 ==> NoKey(orders[k]) == key
    ensures forall j :: 0 <= j < |orders| && (k < 0 || j < k) ==> NoKey(orders[j]) != key
    decreases |orders|
  {
    if orders == [] then -1
    else if NoKey(orders[0]) == key then 0
    else
      var k := FirstWithNo(orders[1..], key);
      if k < 0 then -1 else k + 1
  }

  /** `_toggle_order_line`'s effect: only the first order numbered `key` has its lines marked. */
  function MarkLine(orders: seq<Order>, key: string, barcode: string, value: bool): seq<Order>
  {
    var k := FirstWithNo(orders, key);
    if k < 0 then orders else orders[k := MarkOrder(orders[k], barcode, value)]
  }

  /** Every order but the first one numbered `key` is left as it was, later namesakes included. */
  lemma MarkLineTouchesFirstOnly(orders: seq<Order>, key: string, barcode: string, value: bool, i: int)
    requires 0 <= i < |orders|
    requires i != FirstWithNo(orders, key)
    ensures |MarkLine(orders, key, barcode, value)| == |orders|
    ensures MarkLine(orders, key, barcode, value)[i] == orders[i]
    ensures NoKey(orders[i]) == key ==> i > FirstWithNo(orders, key) >= 0
  {
  }

  /** The loop of `_toggle_order_line`, up to its `break`. */
  method MarkOrderLine(orders: seq<Order>, key: string, barcode: string, value: bool)
    returns (updated: seq<Order>, changed: bool)
    ensures updated == MarkLine(orders, key, barcode, value)
    ensures changed <==> FirstWithNo(orders, key) >= 0
                         && ItemsDiffer(orders[FirstWithNo(orders, key)].products, barcode, value)
  {
    updated, changed := orders, false;
    var i := 0;
    while i < |orders|
      invariant 0 <= i <= |orders|
      invariant forall j :: 0 <= j < i ==> NoKey(orders[j]) != key
    {
      if NoKey(orders[i]) == key {
        var marked;
        marked, changed := MarkLines(orders[i].products, barcode, value);
        updated := orders[i := orders[i].(products := marked)];
        return;
      }
      i := i + 1;
    }
  }

  // ------------------------------------------------------------------ status rewrites

  /** The status name both cancel handlers write, beside status "-1". */
  const CancelledName: string := "İptal Edildi"

  function WithStatus(o: Order, status: Field, name: string): Order
  {
    o.(status := status, statusName := name)
  }

  /** The cancel and print handlers of the second server: only the first order numbered `key` is rewritten. */
  function SetStatusFirst(orders: seq<Order>, key: string, status: Field, name: string): (r: seq<Order>)
    ensures |r| == |orders|
    ensures forall i :: 0 <= i < |r| && i != FirstWithNo(orders, key) ==> r[i] == orders[i]
    ensures FirstWithNo(orders, key) >= 0 ==>
      r[FirstWithNo(orders, key)] == WithStatus(orders[FirstWithNo(orders, key)], status, name)
  {
    var k := FirstWithNo(orders, key);
    if k < 0 then orders else orders[k := WithStatus(orders[k], status, name)]
  }

  /** `iptal_et` of the desktop window: every order numbered `key` is rewritten. */
  function SetStatusAll(orders: seq<Order>, key: string, status: Field, name: string): (r: seq<Order>)
    ensures |r| == |orders|
    ensures forall i :: 0 <= i < |r| ==> r[i] == if NoKey(orders[i]) == key then WithStatus(orders[i], status, name) else orders[i]
  {
    seq(|orders|, i requires 0 <= i < |orders| =>
      if NoKey(orders[i]) == key then WithStatus(orders[i], status, name) else orders[i])
  }

  /** The two rewrites agree unless the number occurs twice; then a later namesake keeps its old status under the first. */
  lemma FirstAndAllStatus(orders: seq<Order>, key: string, status: Field, name: string)
    ensures (forall i, j :: 0 <= i < j < |orders| && NoKey(orders[i]) == key ==> NoKey(orders[j]) != key)
      ==> SetStatusFirst(orders, key, status, name) == SetStatusAll(orders, key, status, name)
    ensures forall i :: 0 <= i < |orders| && NoKey(orders[i]) == key ==>
      SetStatusAll(orders, key, status, name)[i].status == status
  {
    if forall i, j :: 0 <= i < j < |orders| && NoKey(orders[i]) == key ==> NoKey(orders[j]) != key {
      var a := SetStatusFirst(orders, key, status, name);
      var b := SetStatusAll(orders, key, status, name);
      forall i | 0 <= i < |orders|
        ensures a[i] == b[i]
      {
        var k := FirstWithNo(orders, key);
        assert NoKey(orders[i]) == key ==> i == k;
      }
    }
  }

  /** The loop with `break` in the cancel and print handlers. */
  method RewriteFirstStatus(orders: seq<Order>, key: string, status: Field, name: string) returns (updated: seq<Order>)
    ensures updated == SetStatusFirst(orders, key, status, name)
  {
    updated := orders;
    for i := 0 to |orders|
      invariant forall j :: 0 <= j < i ==> NoKey(orders[j]) != key
    {
      if NoKey(orders[i]) == key {
        updated := orders[i := WithStatus(orders[i], status, name)];
        return;
      }
    }
  }

  /** The loop of `iptal_et`, which does not stop at the first match. */
  method RewriteAllStatus(orders: seq<Order>, key: string, status: Field, name: string) returns (updated: seq<Order>)
    ensures updated == SetStatusAll(orders, key, status, name)
  {
    updated := orders;
    for i := 0 to |orders|
      invariant |updated| == |orders|
      invariant forall j :: 0 <= j < i ==> updated[j] == if NoKey(orders[j]) == key then WithStatus(orders[j], status, name) else orders[j]
      invariant forall j :: i <= j < |orders| ==> updated[j] == orders[j]
    {
      if NoKey(orders[i]) == key {
        updated := updated[i := WithStatus(orders[i], status, name)];
      }
    }
  }
}
