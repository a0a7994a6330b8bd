/**
 * serverdeneme/server.py: the first web server. Its order list filters by
 * status only to hide cancelled orders, its dates raise on bad input, its
 * toggle has no guard against an empty barcode, and its own refresh fallback
 * merges by overwriting stored orders with fetched ones.
 */
module Server {
  import opened Wrappers
  import opened Text
  import opened Seqs
  import opened Records
  import opened Storage
  import opened Api
  import opened Utils
  import opened OrderFilters
  import opened StoreEdits
  import opened Locations
  import opened Picklist

  // ------------------------------------------------------------------ index

  /**
   * The filters of `index`: "iptal" orders are hidden only under "TÜMÜ" (any
   * other status bucket filters nothing), then platform, cargo and the two
   * dates, which raise (None) on a date that does not parse.
   */
  function IndexOrders(orders: seq<Order>, durum: string, platform: string, kargo: string,
                       t1: DateArg, t2: DateArg): Option<seq<Order>>
  {
    var s := if durum == "TÜMÜ" then NotIptal(orders) else orders;
    RaisingBounds(ByCargo(ByPlatform(s, platform), kargo), t1, t2)
  }

  /** The tests `index` applies to one order before the dates. */
  predicate IndexKeeps(o: Order, durum: string, platform: string, kargo: string)
  {
    && (durum == "TÜMÜ" ==> !NameSaysIptal(o))
    && (platform == "TÜMÜ" || o.entegration == platform)
    && (kargo == "TÜMÜ" || o.cargoCompany == kargo)
  }

  /**
   * The page fails exactly when a date does not parse or a date applies to a
   * kept order without a timestamp; otherwise it lists, in stored order,
   * exactly the orders that pass every test.
   */
  lemma IndexOrdersSpec(orders: seq<Order>, durum: string, platform: string, kargo: string,
                        t1: DateArg, t2: DateArg)
    ensures IndexOrders(orders, durum, platform, kargo, t1, t2).None? <==>
      (|| t1.Unparsable? || t2.Unparsable?
       || ((t1.Day? || t2.Day?) &&
           exists o :: o in orders && IndexKeeps(o, durum, platform, kargo) && o.datetime.None?))
    ensures var r := IndexOrders(orders, durum, platform, kargo, t1, t2);
      r.Some? ==> (IsSubseq(r.value, orders) &&
        forall o :: o in r.value <==> o in orders && IndexKeeps(o, durum, platform, kargo) && Within(o, t1, t2))
  {
    var s := if durum == "TÜMÜ" then NotIptal(orders) else orders;
    if durum != "TÜMÜ" {
      SubseqRefl(orders);
    }
    var p := ByPlatform(s, platform);
    var c := ByCargo(p, kargo);
    SubseqTransitive(p, s, orders);
    SubseqTransitive(c, p, orders);
    assert forall o :: o in c <==> o in orders && IndexKeeps(o, durum, platform, kargo);
    RaisingBoundsSpec(c, t1, t2);
    var r := RaisingBounds(c, t1, t2);
    if r.Some? {
      SubseqTransitive(r.value, c, orders);
    }
  }

  // ------------------------------------------------------------------ toggle

  /** `str(form.get(...))`: a missing form field reads as "None". */
  function FormText(v: Option<string>): string
  {
    if v.Some? then v.value else "None"
  }

  /**
   * `toggle_collected` (and `picklist_toggle`, which forwards to it): the
   * form's value read as a flag, then every item with the form's barcode
   * marked. Unlike the second server, an empty barcode is not refused.
   */
  method ToggleCollectedForm(disk: Disk, barcode: Option<string>, value: Option<string>)
    modifies disk
    ensures disk.Orders() == MarkAll(old(disk.Orders()), FormText(barcode), ToggleValue(FormText(value)))
    ensures !AnyDiffers(old(disk.Orders()), FormText(barcode), ToggleValue(FormText(value))) ==>
      disk.output == old(disk.output)
    ensures disk.done == old(disk.done) && disk.archive == old(disk.archive) && disk.locations == old(disk.locations)
  {
    var flag := ToggleValue(FormText(value));
    var _ := ToggleCollected(disk, FormText(barcode), flag);
  }

  /**
   * Without the guard, a toggle with an empty barcode marks every item that
   * was stored without a barcode, and only those.
   */
  lemma EmptyBarcodeMarksBlankItems(orders: seq<Order>, value: bool, i: int, j: int)
    requires 0 <= i < |orders| && 0 <= j < |orders[i].products|
    ensures var u := MarkAll(orders, "", value)[i].products[j];
      (orders[i].products[j].barcode == "" ==> u.collected == Some(value)) &&
      (orders[i].products[j].barcode != "" ==> u == orders[i].products[j])
  {
    assert MarkAll(orders, "", value)[i] == MarkOrder(orders[i], "", value);
    assert MarkOrder(orders[i], "", value).products[j] == MarkItem(orders[i].products[j], "", value);
  }

  // ------------------------------------------------------------------ print

  /**
   * `order_print`: remove the order from the store, then add its number to
   * the done list; a failure of either step (an unreadable file) ends the
   * handler silently, so a failed removal also skips the done list.
   */
  method OrderPrint(disk: Disk, orderNo: string)
    modifies disk
    ensures old(disk.output).None? ==> disk.output == old(disk.output) && disk.done == old(disk.done)
    ensures old(disk.output).Some? ==> disk.Orders() == Remove(old(disk.Orders()), orderNo)
    ensures !AnyMatch(old(disk.Orders()), orderNo) ==> disk.output == old(disk.output)
    ensures old(disk.output).Some? && old(disk.done).Missing? ==> disk.done == Ids([orderNo])
    ensures old(disk.output).Some? && old(disk.done).Ids? ==> disk.done == Ids(AddDone(old(disk.done).ids, orderNo))
    ensures old(disk.done).Unreadable? ==> disk.done == old(disk.done)
    ensures forall o :: o in disk.Orders() ==> !MatchesNo(o, orderNo)
    ensures disk.archive == old(disk.archive) && disk.locations == old(disk.locations)
  {
    ghost var before := disk.Orders();
    var raised := DeleteOrder(disk, Str(orderNo));
    if !raised {
      if !AnyMatch(before, orderNo) {
        RemoveNothing(before, orderNo);
      }
      raised := AddToDoneOrders(disk, Str(orderNo));
    }
  }

  // ------------------------------------------------------------------ pick list

  /**
   * `picklist`: a date that does not parse fails the page; otherwise every
   * listed product, with its shelf (or "") and whether all its lines are
   * collected. Nothing is dropped, unlike the second server's pick list.
   */
  method PicklistPage(disk: Disk, platform: string, t1: DateArg, t2: DateArg, q: string, now: int)
    returns (page: Option<seq<PickRow>>)
    ensures page.None? <==> t1.Unparsable? || t2.Unparsable?
    ensures page.Some? ==>
      page.value == MarkRows(Products(disk.Orders(), platform, DayOf(t1), DayOf(t2), q, now), Registry(disk.locations))
  {
    if t1.Unparsable? || t2.Unparsable? {
      return None;
    }
    var urunler := Depo.GetDepoUrunler(disk.Orders(), platform, DayOf(t1), DayOf(t2), q, now);
    var locs := ReadLocations(disk.locations);
    var rows := MarkPicklist(urunler, locs);
    return Some(rows);
  }

  // ------------------------------------------------------------------ locations

  /** `locations_set`: the location is recorded under `name` as typed (not stripped). */
  method LocationsSet(disk: Disk, name: string, location: string)
    modifies disk
    ensures Registry(disk.locations) == old(Registry(disk.locations))[name := location]
    ensures WrittenFrom(Registry(disk.locations), disk.locations)
    ensures disk.output == old(disk.output) && disk.done == old(disk.done) && disk.archive == old(disk.archive)
  {
    var locs := ReadLocations(disk.locations);
    locs := locs[name := location];
    WriteLocations(disk, locs);
  }

  // ------------------------------------------------------------------ refresh fallback

  /** `str(o.get("no") or o.get("order_number") or o.get("id"))`. */
  function FallbackKey(o: Order): string
  {
    Or(Or(o.no, o.orderNumber), o.id).PyStr()
  }

  /** The position of the entry keyed `key`, or -1. */
  function FindKey(entries: seq<Order>, key: string): (k: int)
    ensures -1 <= k < |entries|
    ensures k >= 0 ==> FallbackKey(entries[k]) == key
    ensures k < 0 ==> forall j :: 0 <= j < |entries| ==> FallbackKey(entries[j]) != key
    decreases |entries|
  {
    if entries == [] then -1
    else if FallbackKey(entries[0]) == key then 0
    else
      var k := FindKey(entries[1..], key);
      if k < 0 then -1 else k + 1
  }

  /** No two entries share a key, as in a dict. */
  predicate DistinctKeys(entries: seq<Order>)
  {
    forall i, j :: 0 <= i < j < |entries| ==> FallbackKey(entries[i]) != FallbackKey(entries[j])
  }

  /**
   * The dict's values in insertion order after `by_no[key] = o`: a new key is
   * appended, an existing key keeps its place and takes the new value.
   */
  function Upsert(entries: seq<Order>, o: Order): seq<Order>
  {
    var k := FindKey(entries, FallbackKey(o));
    if k < 0 then entries + [o] else entries[k := o]
  }

  function UpsertAll(entries: seq<Order>, xs: seq<Order>): seq<Order>
    decreases |xs|
  {
    if xs == [] then entries else UpsertAll(Upsert(entries, xs[0]), xs[1..])
  }

  /** The stored orders, then the fetched ones, put into one dict keyed by `FallbackKey`. */
  function FallbackMerge(stored: seq<Order>, fetched: seq<Order>): seq<Order>
  {
    UpsertAll([], stored + fetched)
  }

  /** The last order in `xs` keyed `key`, if any. */
  function LastWithKey(xs: seq<Order>, key: string): Option<Order>
    decreases |xs|
  {
    if xs == [] then None
    else
      var later := LastWithKey(xs[1..], key);
      if later.Some? then later
      else if FallbackKey(xs[0]) == key then Some(xs[0])
      else None
  }

  lemma {:induction false} LastWithKeyFound(xs: seq<Order>, key: string)
    ensures LastWithKey(xs, key).Some? <==> exists x :: x in xs && FallbackKey(x) == key
    ensures LastWithKey(xs, key).Some? ==>
      LastWithKey(xs, key).value in xs && FallbackKey(LastWithKey(xs, key).value) == key
    decreases |xs|
  {
    if xs != [] {
      LastWithKeyFound(xs[1..], key);
      assert xs == [xs[0]] + xs[1..];
      assert forall x :: x in xs <==> x == xs[0] || x in xs[1..];
    }
  }

  /** In a dict-like list the key's entry is the only one carrying that key. */
  lemma FindKeyUnique(entries: seq<Order>, i: int)
    requires DistinctKeys(entries) && 0 <= i < |entries|
    ensures FindKey(entries, FallbackKey(entries[i])) == i
  {
  }

  /** One assignment `by_no[key] = o`, as seen through every key. */
  lemma UpsertStep(entries: seq<Order>, o: Order)
    requires DistinctKeys(entries)
    ensures DistinctKeys(Upsert(entries, o))
    ensures |Upsert(entries, o)| >= |entries|
    ensures forall i :: 0 <= i < |entries| ==> FallbackKey(Upsert(entries, o)[i]) == FallbackKey(entries[i])
    ensures forall i :: |entries| <= i < |Upsert(entries, o)| ==>
      forall j :: 0 <= j < |entries| ==> FallbackKey(Upsert(entries, o)[i]) != FallbackKey(entries[j])
    ensures FindKey(Upsert(entries, o), FallbackKey(o)) >= 0
    ensures Upsert(entries, o)[FindKey(Upsert(entries, o), FallbackKey(o))] == o
    ensures forall key :: key != FallbackKey(o) ==>
      (FindKey(Upsert(entries, o), key) >= 0 <==> FindKey(entries, key) >= 0) &&
      (FindKey(entries, key) >= 0 ==>
        Upsert(entries, o)[FindKey(Upsert(entries, o), key)] == entries[FindKey(entries, key)])
  {
    var u := Upsert(entries, o);
    var k := FindKey(entries, FallbackKey(o));
    assert forall i :: 0 <= i < |entries| && i != k ==> u[i] == entries[i];
    assert DistinctKeys(u);
    FindKeyUnique(u, if k < 0 then |entries| else k);
    forall key | key != FallbackKey(o)
      ensures (FindKey(u, key) >= 0 <==> FindKey(entries, key) >= 0)
      ensures FindKey(entries, key) >= 0 ==> u[FindKey(u, key)] == entries[FindKey(entries, key)]
    {
      var e := FindKey(entries, key);
      if e >= 0 {
        assert e != k && u[e] == entries[e];
        FindKeyUnique(u, e);
      }
      var f := FindKey(u, key);
      if f >= 0 {
        assert f < |entries| && f != k && u[f] == entries[f];
      }
    }
  }

  /**
   * Folding a batch into a dict-like list: keys stay distinct, stored keys
   * keep their places with new keys after them, every key of the batch gets
   * an entry, and each entry is the batch's last order with that key or, for
   * a key the batch lacks, the entry that was there.
   */
  lemma {:induction false} UpsertAllSpec(entries: seq<Order>, xs: seq<Order>)
    requires DistinctKeys(entries)
    ensures var r := UpsertAll(entries, xs);
      && DistinctKeys(r)
      && |r| >= |entries|
      && (forall i :: 0 <= i < |entries| ==> FallbackKey(r[i]) == FallbackKey(entries[i]))
      && (forall i :: |entries| <= i < |r| ==>
            forall j :: 0 <= j < |entries| ==> FallbackKey(r[i]) != FallbackKey(entries[j]))
      && (forall key :: FindKey(r, key) >= 0 <==> FindKey(entries, key) >= 0 || LastWithKey(xs, key).Some?)
      && (forall key :: LastWithKey(xs, key).Some? ==> r[FindKey(r, key)] == LastWithKey(xs, key).value)
      && (forall key :: LastWithKey(xs, key).None? && FindKey(entries, key) >= 0 ==>
            r[FindKey(r, key)] == entries[FindKey(entries, key)])
    decreases |xs|
  {
    if xs != [] {
      var u := Upsert(entries, xs[0]);
      UpsertStep(entries, xs[0]);
      UpsertAllSpec(u, xs[1..]);
      var r := UpsertAll(u, xs[1..]);
      assert r == UpsertAll(entries, xs);
      forall i | |entries| <= i < |r|
        ensures forall j :: 0 <= j < |entries| ==> FallbackKey(r[i]) != FallbackKey(entries[j])
      {
        if i < |u| {
          assert FallbackKey(r[i]) == FallbackKey(u[i]);
        }
      }
    }
  }

  /** Putting a list that already has distinct keys into an empty dict returns it as it was. */
  lemma {:induction false} UpsertAllDistinct(entries: seq<Order>, xs: seq<Order>)
    requires DistinctKeys(entries + xs)
    ensures UpsertAll(entries, xs) == entries + xs
    decreases |xs|
  {
    if xs != [] {
      assert (entries + xs)[|entries|] == xs[0];
      forall j | 0 <= j < |entries|
        ensures FallbackKey(entries[j]) != FallbackKey(xs[0])
      {
        assert (entries + xs)[j] == entries[j];
      }
      assert FindKey(entries, FallbackKey(xs[0])) < 0;
      assert entries + xs == (entries + [xs[0]]) + xs[1..];
      UpsertAllDistinct(entries + [xs[0]], xs[1..]);
    }
  }

  lemma {:induction false} UpsertAllAppend(entries: seq<Order>, xs: seq<Order>, ys: seq<Order>)
    ensures UpsertAll(entries, xs + ys) == UpsertAll(UpsertAll(entries, xs), ys)
    decreases |xs|
  {
    if xs != [] {
      assert (xs + ys)[0] == xs[0] && (xs + ys)[1..] == xs[1..] + ys;
      UpsertAllAppend(Upsert(entries, xs[0]), xs[1..], ys);
    } else {
      assert xs + ys == ys;
    }
  }

  /** The first position of a key in a list that gains one more order at its end. */
  lemma {:induction false} FindKeySnoc(xs: seq<Order>, x: Order, key: string)
    ensures FindKey(xs + [x], key) ==
      if FindKey(xs, key) >= 0 then FindKey(xs, key)
      else if FallbackKey(x) == key then |xs|
      else -1
    decreases |xs|
  {
    if xs != [] {
      assert (xs + [x])[0] == xs[0] && (xs + [x])[1..] == xs[1..] + [x];
      FindKeySnoc(xs[1..], x, key);
    }
  }

  /** Where each entry's key first occurs in `xs` (-1 when it does not). */
  function Positions(r: seq<Order>, xs: seq<Order>): seq<int>
  {
    seq(|r|, i requires 0 <= i < |r| => FindKey(xs, FallbackKey(r[i])))
  }

  predicate Increasing(p: seq<int>)
  {
    forall i, j :: 0 <= i < j < |p| ==> p[i] < p[j]
  }

  /** The keys of `r` all occur in `xs`, in the order of their first occurrence there. */
  predicate FirstOccurrenceOrder(r: seq<Order>, xs: seq<Order>)
  {
    var p := Positions(r, xs);
    (forall i :: 0 <= i < |p| ==> p[i] >= 0) && Increasing(p)
  }

  /** A key the dict filled from `xs` lacks does not occur in `xs`. */
  lemma UpsertAllLacks(xs: seq<Order>, key: string)
    requires FindKey(UpsertAll([], xs), key) < 0
    ensures FindKey(xs, key) < 0
  {
    UpsertAllSpec([], xs);
    LastWithKeyFound(xs, key);
  }

  /** A position beyond all others keeps a list increasing. */
  lemma IncreasingSnoc(p: seq<int>, n: int)
    requires Increasing(p) && forall i :: 0 <= i < |p| ==> p[i] < n
    ensures Increasing(p + [n])
  {
  }

  /** A new key goes last, and its first position is the end of the list. */
  lemma FirstOccurrenceAppend(r: seq<Order>, xs: seq<Order>, x: Order)
    requires FirstOccurrenceOrder(r, xs) && FindKey(xs, FallbackKey(x)) < 0
    ensures FirstOccurrenceOrder(r + [x], xs + [x])
  {
    var p := Positions(r, xs);
    forall i | 0 <= i < |r|
      ensures Positions(r + [x], xs + [x])[i] == p[i] < |xs|
    {
      assert (r + [x])[i] == r[i];
      FindKeySnoc(xs, x, FallbackKey(r[i]));
    }
    FindKeySnoc(xs, x, FallbackKey(x));
    assert Positions(r + [x], xs + [x]) == p + [|xs|];
    IncreasingSnoc(p, |xs|);
  }

  /** An existing key keeps its place, so the order of keys is unchanged. */
  lemma FirstOccurrenceReplace(r: seq<Order>, xs: seq<Order>, x: Order, k: int)
    requires FirstOccurrenceOrder(r, xs) && 0 <= k < |r| && FallbackKey(r[k]) == FallbackKey(x)
    ensures FirstOccurrenceOrder(r[k := x], xs + [x])
  {
    var u := r[k := x];
    forall i | 0 <= i < |r|
      ensures Positions(u, xs + [x])[i] == Positions(r, xs)[i]
    {
      assert FallbackKey(u[i]) == FallbackKey(r[i]);
      FindKeySnoc(xs, x, FallbackKey(r[i]));
    }
    assert Positions(u, xs + [x]) == Positions(r, xs);
  }

  /** One more assignment keeps the keys in first-occurrence order. */
  lemma FirstOccurrenceStep(r: seq<Order>, xs: seq<Order>, x: Order)
    requires FirstOccurrenceOrder(r, xs)
    requires FindKey(r, FallbackKey(x)) < 0 ==> FindKey(xs, FallbackKey(x)) < 0
    ensures FirstOccurrenceOrder(Upsert(r, x), xs + [x])
  {
    var k := FindKey(r, FallbackKey(x));
    if k < 0 {
      FirstOccurrenceAppend(r, xs, x);
    } else {
      FirstOccurrenceReplace(r, xs, x, k);
    }
  }

  /**
   * A dict filled from `xs` lists its keys in the order they first occur in
   * `xs`: `FindKey(xs, key)` is that first position.
   */
  lemma {:induction false} UpsertAllFirstOccurrence(xs: seq<Order>)
    ensures FirstOccurrenceOrder(UpsertAll([], xs), xs)
    decreases |xs|
  {
    if xs != [] {
      var p, x := xs[..|xs| - 1], xs[|xs| - 1];
      assert xs == p + [x];
      UpsertAllFirstOccurrence(p);
      var r0 := UpsertAll([], p);
      UpsertAllAppend([], p, [x]);
      assert UpsertAll(r0, [x]) == UpsertAll(Upsert(r0, x), []);
      if FindKey(r0, FallbackKey(x)) < 0 {
        UpsertAllLacks(p, FallbackKey(x));
      }
      FirstOccurrenceStep(r0, p, x);
    }
  }

  /** Every key seen gets an entry, and each entry is the last order seen with its key. */
  lemma FallbackEntries(stored: seq<Order>, fetched: seq<Order>)
    ensures DistinctKeys(FallbackMerge(stored, fetched))
    ensures forall x :: x in stored + fetched ==> FindKey(FallbackMerge(stored, fetched), FallbackKey(x)) >= 0
    ensures forall o :: o in FallbackMerge(stored, fetched) ==>
      LastWithKey(stored + fetched, FallbackKey(o)) == Some(o)
  {
    var all := stored + fetched;
    var r := FallbackMerge(stored, fetched);
    UpsertAllSpec([], all);
    forall x | x in all
      ensures FindKey(r, FallbackKey(x)) >= 0
    {
      LastWithKeyFound(all, FallbackKey(x));
    }
    forall o | o in r
      ensures LastWithKey(all, FallbackKey(o)) == Some(o)
    {
      var i :| 0 <= i < |r| && r[i] == o;
      FindKeyUnique(r, i);
    }
  }

  /** Distinct stored keys keep their places at the front. */
  lemma FallbackStoredPlaces(stored: seq<Order>, fetched: seq<Order>)
    requires DistinctKeys(stored)
    ensures |FallbackMerge(stored, fetched)| >= |stored|
    ensures forall i :: 0 <= i < |stored| ==> FallbackKey(FallbackMerge(stored, fetched)[i]) == FallbackKey(stored[i])
  {
    UpsertAllAppend([], stored, fetched);
    assert [] + stored == stored;
    UpsertAllDistinct([], stored);
    UpsertAllSpec(stored, fetched);
  }

  /**
   * The refresh fallback writes one entry per key: the last fetched order
   * with that key, or else the last stored one. The keys come in the order
   * they first occur in the stored orders and then the fetched ones, so new
   * keys follow in fetch order. When the stored keys were distinct they keep
   * their places and new keys come after them.
   */
  lemma FallbackMergeSpec(stored: seq<Order>, fetched: seq<Order>)
    ensures DistinctKeys(FallbackMerge(stored, fetched))
    ensures forall x :: x in stored + fetched ==> FindKey(FallbackMerge(stored, fetched), FallbackKey(x)) >= 0
    ensures forall o :: o in FallbackMerge(stored, fetched) ==>
      LastWithKey(stored + fetched, FallbackKey(o)) == Some(o)
    ensures DistinctKeys(stored) ==>
      (&& |FallbackMerge(stored, fetched)| >= |stored|
       && (forall i :: 0 <= i < |stored| ==> FallbackKey(FallbackMerge(stored, fetched)[i]) == FallbackKey(stored[i])))
    ensures forall i, j :: 0 <= i < j < |FallbackMerge(stored, fetched)| ==>
      FindKey(stored + fetched, FallbackKey(FallbackMerge(stored, fetched)[i])) <
      FindKey(stored + fetched, FallbackKey(FallbackMerge(stored, fetched)[j]))
  {
    FallbackEntries(stored, fetched);
    if DistinctKeys(stored) {
      FallbackStoredPlaces(stored, fetched);
    }
    var r := FallbackMerge(stored, fetched);
    UpsertAllFirstOccurrence(stored + fetched);
    forall i, j | 0 <= i < j < |r|
      ensures FindKey(stored + fetched, FallbackKey(r[i])) < FindKey(stored + fetched, FallbackKey(r[j]))
    {
      assert Positions(r, stored + fetched)[i] < Positions(r, stored + fetched)[j];
    }
  }

  /**
   * The fallback and `merge_and_save_orders` disagree: for the same stored
   * order and a fetched copy with a new cargo company, the merge keeps the
   * stored copy and the fallback replaces it.
   */
  lemma FallbackOverwritesMergeKeeps()
    ensures var s := Order(Str("1"), Absent, Absent, Absent, None, Absent, "", "", "", Absent, []);
      var f := s.(cargoCompany := "X");
      Merge([s], [f], {}) == [s] && FallbackMerge([s], [f]) == [f]
  {
    var s := Order(Str("1"), Absent, Absent, Absent, None, Absent, "", "", "", Absent, []);
    var f := s.(cargoCompany := "X");
    assert MergeKey(f) == MergeKey(s) && MergeKey(s) in Keys([s]);
    assert Unseen([f], Keys([s])) == [];
    assert [s] + [] == [s];
    assert [s][..0] == [];
    assert NotDone([s], {}) == [s];
    assert [s] + [f] == [s, f];
    assert FindKey([], FallbackKey(s)) == -1;
    assert Upsert([], s) == [s];
    assert FindKey([s], FallbackKey(f)) == 0;
    assert Upsert([s], f) == [f];
    assert [s, f][1..] == [f];
    assert [f][1..] == [];
    assert UpsertAll([], [s, f]) == UpsertAll([s], [f]);
    assert UpsertAll([s], [f]) == UpsertAll([f], []) == [f];
  }

  /** `by_no[key] = o`, on the dict's insertion order and contents. */
  method Put(keys: seq<string>, byNo: map<string, Order>, ghost entries: seq<Order>, o: Order)
    returns (keys': seq<string>, byNo': map<string, Order>, ghost entries': seq<Order>)
    requires DictOf(keys, byNo, entries)
    ensures DictOf(keys', byNo', entries')
    ensures entries' == Upsert(entries, o)
  {
    var key := FallbackKey(o);
    if key in byNo {
      ghost var k :| 0 <= k < |keys| && keys[k] == key;
      FindKeyUnique(entries, k);
      DictReplace(keys, byNo, entries, k, o);
      keys', byNo', entries' := keys, byNo[key := o], entries[k := o];
    } else {
      DictAppend(keys, byNo, entries, o);
      keys', byNo', entries' := keys + [key], byNo[key := o], entries + [o];
    }
  }

  /** Assigning to a key the dict has keeps its place in the insertion order. */
  lemma DictReplace(keys: seq<string>, byNo: map<string, Order>, entries: seq<Order>, k: int, o: Order)
    requires DictOf(keys, byNo, entries) && 0 <= k < |keys| && keys[k] == FallbackKey(o)
    ensures DictOf(keys, byNo[keys[k] := o], entries[k := o])
  {
    var e := entries[k := o];
    assert forall i :: 0 <= i < |entries| && i != k ==> e[i] == entries[i] && keys[i] != keys[k];
  }

  /** Assigning to a new key appends it to the insertion order. */
  lemma DictAppend(keys: seq<string>, byNo: map<string, Order>, entries: seq<Order>, o: Order)
    requires DictOf(keys, byNo, entries) && FallbackKey(o) !in byNo
    ensures DictOf(keys + [FallbackKey(o)], byNo[FallbackKey(o) := o], entries + [o])
    ensures FindKey(entries, FallbackKey(o)) < 0
  {
  }

  /** The fallback's two dict loops: each order is put under its key in turn. */
  method PutAll(keys: seq<string>, byNo: map<string, Order>, ghost entries: seq<Order>, xs: seq<Order>)
    returns (keys': seq<string>, byNo': map<string, Order>, ghost entries': seq<Order>)
    requires DictOf(keys, byNo, entries)
    ensures DictOf(keys', byNo', entries')
    ensures entries' == UpsertAll(entries, xs)
  {
    keys', byNo', entries' := keys, byNo, entries;
    for i := 0 to |xs|
      invariant DictOf(keys', byNo', entries')
      invariant UpsertAll(entries', xs[i..]) == UpsertAll(entries, xs)
    {
      assert xs[i..][0] == xs[i] && xs[i..][1..] == xs[i + 1..];
      keys', byNo', entries' := Put(keys', byNo', entries', xs[i]);
    }
    assert xs[|xs|..] == [];
  }

  /**
   * `keys` is the dict's insertion order, `byNo` its contents, and `entries`
   * the values in that order.
   */
  ghost predicate DictOf(keys: seq<string>, byNo: map<string, Order>, entries: seq<Order>)
  {
    && |keys| == |entries|
    && DistinctKeys(entries)
    && (forall i :: 0 <= i < |keys| ==> keys[i] == FallbackKey(entries[i]) && keys[i] in byNo && byNo[keys[i]] == entries[i])
    && (forall key :: key in byNo ==> key in keys)
  }

  /**
   * The fallback branch of `refresh_from_api` once a non-empty batch is
   * fetched: both lists go into one dict and its values are saved.
   */
  method RefreshFallback(disk: Disk, fetched: seq<Order>)
    modifies disk
    ensures disk.output == Some(FallbackMerge(old(disk.Orders()), fetched))
    ensures disk.done == old(disk.done) && disk.archive == old(disk.archive) && disk.locations == old(disk.locations)
  {
    var cur := disk.Orders();
    var keys, byNo;
    ghost var entries;
    keys, byNo, entries := PutAll([], map[], [], cur);
    keys, byNo, entries := PutAll(keys, byNo, entries, fetched);
    UpsertAllAppend([], cur, fetched);
    var values := [];
    for i := 0 to |keys|
      invariant values == entries[..i]
    {
      values := values + [byNo[keys[i]]];
    }
    assert entries[..|keys|] == entries;
    disk.SaveOrders(values);
  }
}
