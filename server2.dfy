/**
 * The second web server (serverdeneme/server2.py): the order list filter
 * with its status buckets, the collected toggles, the cancel and print
 * status rewrites, the pick list and the location registry handlers.
 */
module Server2 {
  import opened Wrappers
  import opened Text
  import opened Seqs
  import opened Records
  import opened Storage
  import opened OrderFilters
  import opened StoreEdits
  import opened Locations
  import opened Picklist

  // ------------------------------------------------------------------ _filter_orders

  /** The status buckets and the keywords each looks for in the lower-cased status name. */
  const DurumMap: map<string, seq<string>> := map[
    "Depodaki Siparişler" := ["depoda"],
    "Devam Eden Siparişler" := ["devam", "hazırlanıyor"],
    "Kargoya Verilecek Siparişler" := ["kargoya verilecek", "kargoya verildi"],
    "Tamamlanan Siparişler" := ["teslim", "tamam"],
    "İptal Edilen Siparişler" := ["iptal"]]

  /** `durum_map.get(durum, [])`. */
  function Keywords(durum: string): seq<string>
  {
    if durum in DurumMap then DurumMap[durum] else []
  }

  /** "TÜMÜ" keeps what is not cancelled by name; a bucket keeps what one of its keywords matches. */
  predicate StatusKeeps(durum: string, o: Order)
  {
    if durum == "TÜMÜ" then !NameSaysIptal(o)
    else exists i :: 0 <= i < |Keywords(durum)| && Contains(Lower(o.statusName), Keywords(durum)[i])
  }

  function ByStatus(orders: seq<Order>, durum: string): (r: seq<Order>)
    ensures forall o :: o in r <==> o in orders && StatusKeeps(durum, o)
    ensures IsSubseq(r, orders)
  {
    Filter(orders, (o: Order) => StatusKeeps(durum, o))
  }

  /**
   * A date bound inside `try/except Exception: pass`: it applies only when it
   * parses and every remaining order's timestamp parses; otherwise the list
   * is left as it was.
   */
  function FromBound(orders: seq<Order>, t1: DateArg): seq<Order>
  {
    if t1.Day? && AllDated(orders) then Since(orders, t1.t) else orders
  }

  function UntilBound(orders: seq<Order>, t2: DateArg): seq<Order>
  {
    if t2.Day? && AllDated(orders) then Until(orders, t2.t) else orders
  }

  /** The status, platform and cargo filters, before the dates. */
  function Undated(orders: seq<Order>, durum: string, platform: string, kargo: string): (r: seq<Order>)
    ensures forall o :: o in r <==> (o in orders && StatusKeeps(durum, o)
      && (platform == "TÜMÜ" || o.entegration == platform) && (kargo == "TÜMÜ" || o.cargoCompany == kargo))
    ensures IsSubseq(r, orders)
  {
    var s1 := ByStatus(orders, durum);
    var s2 := ByPlatform(s1, platform);
    var s3 := ByCargo(s2, kargo);
    SubseqTransitive(s2, s1, orders);
    SubseqTransitive(s3, s2, orders);
    s3
  }

  /** `_filter_orders`; the result keeps its orders in list order. */
  function FilterOrders(orders: seq<Order>, durum: string, platform: string, kargo: string,
                        t1: DateArg, t2: DateArg): (res: seq<Order>)
    ensures IsSubseq(res, orders)
  {
    var s := Undated(orders, durum, platform, kargo);
    var s4 := FromBound(s, t1);
    var s5 := UntilBound(s4, t2);
    BoundsSubseq(s, orders, t1, t2);
    s5
  }

  lemma BoundsSubseq(s: seq<Order>, orders: seq<Order>, t1: DateArg, t2: DateArg)
    requires IsSubseq(s, orders)
    ensures IsSubseq(UntilBound(FromBound(s, t1), t2), orders)
  {
    var s4 := FromBound(s, t1);
    if t1.Day? && AllDated(s) {
      SubseqTransitive(s4, s, orders);
    }
    if t2.Day? && AllDated(s4) {
      SubseqTransitive(UntilBound(s4, t2), s4, orders);
    }
  }

  /**
   * When every order that survives the status, platform and cargo filters
   * has a timestamp, the bounds are inclusive and the filter keeps exactly
   * the orders meeting every condition.
   */
  lemma FilterOrdersDated(orders: seq<Order>, durum: string, platform: string, kargo: string,
                          t1: DateArg, t2: DateArg)
    requires AllDated(Undated(orders, durum, platform, kargo))
    ensures forall o :: o in FilterOrders(orders, durum, platform, kargo, t1, t2) <==>
      o in orders && StatusKeeps(durum, o) && (platform == "TÜMÜ" || o.entegration == platform)
      && (kargo == "TÜMÜ" || o.cargoCompany == kargo) && Within(o, t1, t2)
  {
    var s := Undated(orders, durum, platform, kargo);
    var s4 := FromBound(s, t1);
    assert AllDated(s4);
  }

  /**
   * One surviving order without a parsable timestamp switches both bounds
   * off: the date filter is skipped, unlike the warehouse view, which only
   * lets that one order through.
   */
  lemma UndatedOrderSkipsDates(orders: seq<Order>, durum: string, platform: string, kargo: string,
                               t1: DateArg, t2: DateArg, o: Order)
    requires o in Undated(orders, durum, platform, kargo) && o.datetime.None?
    ensures FilterOrders(orders, durum, platform, kargo, t1, t2) == Undated(orders, durum, platform, kargo)
  {
  }

  /** A bucket name the map does not know yields an empty list. */
  lemma UnknownBucketEmpty(orders: seq<Order>, durum: string, platform: string, kargo: string,
                           t1: DateArg, t2: DateArg)
    requires durum != "TÜMÜ" && durum !in DurumMap
    ensures FilterOrders(orders, durum, platform, kargo, t1, t2) == []
  {
    var s := Undated(orders, durum, platform, kargo);
    assert forall i :: 0 <= i < |s| ==> s[i] in s;
    assert s == [];
    SubseqRefl(s);
    BoundsSubseq(s, s, t1, t2);
    SubseqMembers(FilterOrders(orders, durum, platform, kargo, t1, t2), s);
  }

  // ------------------------------------------------------------------ toggles

  /**
   * `_toggle_collected_by_barcode`: an empty barcode changes nothing;
   * otherwise every item with that barcode is marked, and the store is
   * rewritten only when some flag changed.
   */
  method ToggleCollectedByBarcode(disk: Disk, barcode: string, value: bool) returns (changed: bool)
    modifies disk
    ensures changed <==> barcode != "" && AnyDiffers(old(disk.Orders()), barcode, value)
    ensures !changed ==> disk.output == old(disk.output)
    ensures changed ==> disk.output == Some(MarkAll(old(disk.Orders()), barcode, value))
    ensures barcode != "" ==> disk.Orders() == MarkAll(old(disk.Orders()), barcode, value)
    ensures disk.done == old(disk.done) && disk.archive == old(disk.archive) && disk.locations == old(disk.locations)
  {
    if barcode == "" {
      return false;
    }
    changed := ToggleCollected(disk, barcode, value);
  }

  /** With nothing to change, marking one order's lines leaves the list as it is. */
  lemma MarkLineUnchanged(orders: seq<Order>, key: string, barcode: string, value: bool)
    ensures MarkLine(orders, key, barcode, value) == orders <==>
      !(FirstWithNo(orders, key) >= 0 && ItemsDiffer(orders[FirstWithNo(orders, key)].products, barcode, value))
  {
    var k := FirstWithNo(orders, key);
    if k >= 0 {
      MarkItemsChanges(orders[k].products, barcode, value);
      var r := MarkLine(orders, key, barcode, value);
      assert r[k].products == MarkItems(orders[k].products, barcode, value);
    }
  }

  /**
   * `_toggle_order_line`: only the first order numbered `orderNo` is
   * touched, and the store is rewritten only when one of its flags changed.
   */
  method ToggleOrderLine(disk: Disk, orderNo: string, barcode: string, value: bool) returns (changed: bool)
    modifies disk
    ensures changed <==> (FirstWithNo(old(disk.Orders()), orderNo) >= 0
      && ItemsDiffer(old(disk.Orders())[FirstWithNo(old(disk.Orders()), orderNo)].products, barcode, value))
    ensures !changed ==> disk.output == old(disk.output)
    ensures changed ==> disk.output == Some(MarkLine(old(disk.Orders()), orderNo, barcode, value))
    ensures disk.Orders() == MarkLine(old(disk.Orders()), orderNo, barcode, value)
    ensures disk.done == old(disk.done) && disk.archive == old(disk.archive) && disk.locations == old(disk.locations)
  {
    var orders := disk.Orders();
    var updated;
    updated, changed := MarkOrderLine(orders, orderNo, barcode, value);
    MarkLineUnchanged(orders, orderNo, barcode, value);
    if changed {
      disk.SaveOrders(updated);
    }
  }

  // ------------------------------------------------------------------ cancel and print

  const ShippedName: string := "Kargoya Verildi"

  /**
   * `order_cancel`: the first order numbered `orderNo` gets status "-1",
   * "İptal Edildi"; the list is written back even when nothing matched.
   */
  method OrderCancel(disk: Disk, orderNo: string)
    modifies disk
    ensures disk.output == Some(SetStatusFirst(old(disk.Orders()), orderNo, Str("-1"), CancelledName))
    ensures disk.done == old(disk.done) && disk.archive == old(disk.archive) && disk.locations == old(disk.locations)
  {
    var updated := RewriteFirstStatus(disk.Orders(), orderNo, Str("-1"), CancelledName);
    disk.SaveOrders(updated);
  }

  /** `order_print`: as cancel, with status "4", "Kargoya Verildi". */
  method OrderPrint(disk: Disk, orderNo: string)
    modifies disk
    ensures disk.output == Some(SetStatusFirst(old(disk.Orders()), orderNo, Str("4"), ShippedName))
    ensures disk.done == old(disk.done) && disk.archive == old(disk.archive) && disk.locations == old(disk.locations)
  {
    var updated := RewriteFirstStatus(disk.Orders(), orderNo, Str("4"), ShippedName);
    disk.SaveOrders(updated);
  }

  /**
   * The name cancel writes is not recognised as cancelled by this server's
   * own filters: "iptal" does not occur in the lower-cased name, since the
   * dotted capital İ lower-cases to "i" and a combining dot above in Python
   * (and stays İ in `Lower`), so a cancelled order stays under "TÜMÜ" and is missing from the
   * "İptal Edilen Siparişler" bucket.
   */
  lemma CancelledOrderStaysListed(o: Order)
    ensures StatusKeeps("TÜMÜ", WithStatus(o, Str("-1"), CancelledName))
    ensures !StatusKeeps("İptal Edilen Siparişler", WithStatus(o, Str("-1"), CancelledName))
  {
    CancelledNameNotIptal();
  }

  /** "iptal" does not occur in the lower-cased cancel name. */
  lemma CancelledNameNotIptal()
    ensures !Contains(Lower(CancelledName), "iptal")
  {
    var h := Lower(CancelledName);
    CancelledNameLower();
    forall k: nat
      ensures !MatchesAt(h, "iptal", k)
    {
      if k + 5 <= |h| {
        assert k == 0 || k == 1 || k == 2 || k == 3 || k == 4 || k == 5 || k == 6 || k == 7;
        assert h[k + 1] != 'p' || h[k] != 'i';
      }
    }
    NoOccurrence(h, "iptal");
  }

  /**
   * Python's `lower()` of the cancel name: "i" followed by U+0307 (combining
   * dot above), then "ptal edildi". "iptal" does not occur in it either.
   */
  lemma PythonCancelledNameNotIptal()
    ensures !Contains("i\U{307}ptal edildi", "iptal")
  {
    var h := "i\U{307}ptal edildi";
    forall k: nat
      ensures !MatchesAt(h, "iptal", k)
    {
      if k + 5 <= |h| {
        assert h[k..k + 5][0] == h[k] && h[k..k + 5][1] == h[k + 1];
        if k == 0 {
          assert h[1] != 'p';
        } else {
          assert k in {1, 2, 3, 4, 5, 6, 7, 8};
          assert h[k] != 'i';
        }
      }
    }
    NoOccurrence(h, "iptal");
  }

  /** `Lower` keeps the dotted capital İ as one character. */
  lemma CancelledNameLower()
    ensures Lower(CancelledName) == "İptal edildi"
  {
  }

  // ------------------------------------------------------------------ pick list

  /**
   * `picklist`: a date that does not parse fails the page; otherwise the
   * listed products that still have an uncollected line, with their shelves.
   */
  method PicklistPage(disk: Disk, platform: string, t1: DateArg, t2: DateArg, q: string, now: int)
    returns (page: Option<seq<PickRow>>)
    ensures page.None? <==> t1.Unparsable? || t2.Unparsable?
    ensures page.Some? ==> (page.value ==
      Filter(MarkRows(Products(disk.Orders(), platform, DayOf(t1), DayOf(t2), q, now), Registry(disk.locations)), Unfinished))
  {
    if t1.Unparsable? || t2.Unparsable? {
      return None;
    }
    var urunler := Depo.GetDepoUrunler(disk.Orders(), platform, DayOf(t1), DayOf(t2), q, now);
    var locs := Registry(disk.locations);
    var rows := UnfinishedRows(urunler, locs);
    return Some(rows);
  }

  // ------------------------------------------------------------------ locations

  /** `locations_set`: the stripped location is recorded under `name`, and the file rewritten sorted. */
  method LocationsSet(disk: Disk, name: string, location: string)
    modifies disk
    ensures Registry(disk.locations) == old(Registry(disk.locations))[name := Strip(location)]
    ensures WrittenFrom(Registry(disk.locations), disk.locations)
    ensures disk.output == old(disk.output) && disk.done == old(disk.done) && disk.archive == old(disk.archive)
  {
    var locs := Registry(disk.locations);
    locs := locs[name := Strip(location)];
    WriteLocations(disk, locs);
  }

  /** `if r.strip()`: the line has some non-whitespace character. */
  predicate HasText(line: string)
  {
    Strip(line) != ""
  }

  /** The comma-split rows of the uploaded file, blank lines left out. */
  function ImportRows(content: string): (rows: seq<seq<string>>)
    ensures forall i :: 0 <= i < |rows| ==> |rows[i]| >= 1
  {
    var lines := Filter(SplitLines(content), HasText);
    seq(|lines|, i requires 0 <= i < |lines| => SplitOn(lines[i], ','))
  }

  /** A row as it is applied: its first two fields stripped. */
  function CleanRow(r: seq<string>): (c: seq<string>)
    ensures |c| >= 2 <==> |r| >= 2
  {
    if |r| >= 2 then [Strip(r[0]), Strip(r[1])] else r
  }

  function Cleaned(rows: seq<seq<string>>): (c: seq<seq<string>>)
    ensures |c| == |rows|
    ensures forall i :: 0 <= i < |c| ==> c[i] == CleanRow(rows[i])
  {
    seq(|rows|, i requires 0 <= i < |rows| => CleanRow(rows[i]))
  }

  /** The loop of `locations_import` over the rows. */
  method ImportInto(locs: map<string, string>, rows: seq<seq<string>>) returns (out: map<string, string>)
    ensures out == Apply(locs, Cleaned(rows))
  {
    out := locs;
    ghost var clean := Cleaned(rows);
    for i := 0 to |rows|
      invariant out == Apply(locs, clean[..i])
    {
      ApplyStep(locs, clean, i);
      var r := rows[i];
      if |r| >= 2 {
        out := out[Strip(r[0]) := Strip(r[1])];
      }
    }
    assert clean[..|rows|] == clean;
  }

  /** One more row applied. */
  lemma ApplyStep(locs: map<string, string>, rows: seq<seq<string>>, i: int)
    requires 0 <= i < |rows|
    ensures Apply(locs, rows[..i + 1]) ==
      (if |rows[i]| >= 2 then Apply(locs, rows[..i])[rows[i][0] := rows[i][1]] else Apply(locs, rows[..i]))
  {
    assert rows[..i + 1][..i] == rows[..i];
  }

  /** `locations_import`: the file's rows are applied in order on top of the registry, which is rewritten sorted. */
  method LocationsImport(disk: Disk, content: string)
    modifies disk
    ensures Registry(disk.locations) == Apply(old(Registry(disk.locations)), Cleaned(ImportRows(content)))
    ensures WrittenFrom(Registry(disk.locations), disk.locations)
    ensures disk.output == old(disk.output) && disk.done == old(disk.done) && disk.archive == old(disk.archive)
  {
    var rows := ImportRows(content);
    var locs := Registry(disk.locations);
    locs := ImportInto(locs, rows);
    WriteLocations(disk, locs);
  }

  /**
   * What an import does to one name: it is set by the last line naming it
   * (after stripping), and a name no line of two or more fields names keeps
   * its old location or stays absent.
   */
  lemma ImportEffect(locs: map<string, string>, content: string, k: string)
    ensures var rows := ImportRows(content);
      var after := Apply(locs, Cleaned(rows));
      && (k in after <==> k in locs || exists i :: 0 <= i < |rows| && |rows[i]| >= 2 && Strip(rows[i][0]) == k)
      && (k in locs && (forall i :: 0 <= i < |rows| && |rows[i]| >= 2 ==> Strip(rows[i][0]) != k) ==> after[k] == locs[k])
      && (forall i :: (0 <= i < |rows| && |rows[i]| >= 2 && Strip(rows[i][0]) == k
            && (forall j :: i < j < |rows| && |rows[j]| >= 2 ==> Strip(rows[j][0]) != k)) ==> after[k] == Strip(rows[i][1]))
  {
    var rows := ImportRows(content);
    var clean := Cleaned(rows);
    ApplyKeys(locs, clean);
    CleanedNames(rows, k);
    if k in locs && !Names(clean, k) {
      ApplyUntouched(locs, clean, k);
    }
    forall i | 0 <= i < |rows| && |rows[i]| >= 2 && Strip(rows[i][0]) == k
        && (forall j :: i < j < |rows| && |rows[j]| >= 2 ==> Strip(rows[j][0]) != k)
      ensures Apply(locs, clean)[k] == Strip(rows[i][1])
    {
      CleanedLastWins(locs, rows, i);
    }
  }

  /** A cleaned row names `k` exactly when a row of two or more fields does once stripped. */
  lemma CleanedNames(rows: seq<seq<string>>, k: string)
    ensures Names(Cleaned(rows), k) <==> exists i :: 0 <= i < |rows| && |rows[i]| >= 2 && Strip(rows[i][0]) == k
  {
    var clean := Cleaned(rows);
    if Names(clean, k) {
      var i :| 0 <= i < |clean| && |clean[i]| >= 2 && clean[i][0] == k;
      assert |rows[i]| >= 2 && Strip(rows[i][0]) == k;
    }
    if exists i :: 0 <= i < |rows| && |rows[i]| >= 2 && Strip(rows[i][0]) == k {
      var i :| 0 <= i < |rows| && |rows[i]| >= 2 && Strip(rows[i][0]) == k;
      assert |clean[i]| >= 2 && clean[i][0] == k;
    }
  }

  /** The last row naming a key, once stripped, sets its location. */
  lemma CleanedLastWins(locs: map<string, string>, rows: seq<seq<string>>, i: int)
    requires 0 <= i < |rows| && |rows[i]| >= 2
    requires forall j :: i < j < |rows| && |rows[j]| >= 2 ==> Strip(rows[j][0]) != Strip(rows[i][0])
    ensures Strip(rows[i][0]) in Apply(locs, Cleaned(rows))
    ensures Apply(locs, Cleaned(rows))[Strip(rows[i][0])] == Strip(rows[i][1])
  {
    var clean := Cleaned(rows);
    assert clean[i] == [Strip(rows[i][0]), Strip(rows[i][1])];
    forall j | i < j < |clean| && |clean[j]| >= 2
      ensures clean[j][0] != clean[i][0]
    {
      assert clean[j] == [Strip(rows[j][0]), Strip(rows[j][1])];
    }
    ApplyLastWins(locs, clean, i);
  }
}
