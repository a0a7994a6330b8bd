/**
 * api.py: merging freshly fetched orders into the store, the paging loop that
 * fetches them, and archiving old delivered orders.
 */
module Api {
  import opened Wrappers
  import opened Text
  import opened Seqs
  import opened Records
  import opened Storage

  // ------------------------------------------------------------------ merge

  /** The identity the merge compares: `str(o.get("no") or o.get("id"))`. */
  function MergeKey(o: Order): string
  {
    Or(o.no, o.id).PyStr()
  }

  function Keys(orders: seq<Order>): set<string>
  {
    set o | o in orders :: MergeKey(o)
  }

  /** An order whose `no` or `order_number`, as strings, is on the done list. */
  predicate IsDone(o: Order, done: set<string>)
  {
    o.no.PyStr() in done || o.orderNumber.PyStr() in done
  }

  /** The done list as the merge reads it: any failure to read it gives the empty set. */
  function DoneSet(f: DoneFile): (done: set<string>)
    ensures !f.Ids? ==> done == {}
    ensures f.Ids? ==> forall x :: x in done <==> x in f.ids
  {
    if f.Ids? then set x | x in f.ids else {}
  }

  /** The fetched orders whose key is not in `keys`, in fetch order. */
  function Unseen(fetched: seq<Order>, keys: set<string>): (r: seq<Order>)
    ensures forall o :: o in r <==> o in fetched && MergeKey(o) !in keys
    ensures IsSubseq(r, fetched)
    decreases |fetched|
  {
    if fetched == [] then []
    else
      var init := fetched[..|fetched| - 1];
      var o := fetched[|fetched| - 1];
      assert fetched == init + [o];
      var r := Unseen(init, keys);
      if MergeKey(o) in keys then
        SubseqSkip(r, init, o);
        r
      else
        SubseqKeep(r, init, o);
        r + [o]
  }

  /** The orders that are not done, in their original order. */
  function NotDone(orders: seq<Order>, done: set<string>): (r: seq<Order>)
    ensures forall o :: o in r <==> o in orders && !IsDone(o, done)
    ensures IsSubseq(r, orders)
    decreases |orders|
  {
    if orders == [] then []
    else
      var init := orders[..|orders| - 1];
      var o := orders[|orders| - 1];
      assert orders == init + [o];
      var r := NotDone(init, done);
      if IsDone(o, done) then
        SubseqSkip(r, init, o);
        r
      else
        SubseqKeep(r, init, o);
        r + [o]
  }

  lemma {:induction false} NotDoneAppend(a: seq<Order>, b: seq<Order>, done: set<string>)
    ensures NotDone(a + b, done) == NotDone(a, done) + NotDone(b, done)
    decreases |b|
  {
    if b != [] {
      var b' := b[..|b| - 1];
      assert (a + b)[..|a + b| - 1] == a + b';
      NotDoneAppend(a, b', done);
    } else {
      assert a + b == a;
    }
  }

  lemma {:induction false} NotDoneKeepsAll(orders: seq<Order>, done: set<string>)
    requires forall o :: o in orders ==> !IsDone(o, done)
    ensures NotDone(orders, done) == orders
    decreases |orders|
  {
    if orders != [] {
      NotDoneKeepsAll(orders[..|orders| - 1], done);
      assert orders == orders[..|orders| - 1] + [orders[|orders| - 1]];
    }
  }

  lemma {:induction false} NotDoneDropsAll(orders: seq<Order>, done: set<string>)
    requires forall o :: o in orders ==> IsDone(o, done)
    ensures NotDone(orders, done) == []
    decreases |orders|
  {
    if orders != [] {
      NotDoneDropsAll(orders[..|orders| - 1], done);
    }
  }

  /**
   * `merge_and_save_orders` once the two files are read: the stored orders,
   * then every fetched order whose key no stored order has, with every done
   * order left out of both.
   */
  function Merge(stored: seq<Order>, fetched: seq<Order>, done: set<string>): (merged: seq<Order>)
    ensures forall o :: o in merged ==> !IsDone(o, done)
    ensures IsSubseq(merged, stored + fetched) && |merged| <= |stored| + |fetched|
    ensures NotDone(stored, done) <= merged
    ensures forall o :: o in merged <==>
      (o in stored || (o in fetched && MergeKey(o) !in Keys(stored))) && !IsDone(o, done)
  {
    var novel := Unseen(fetched, Keys(stored));
    var merged := NotDone(stored + novel, done);
    NotDoneAppend(stored, novel, done);
    SubseqPrefix(stored, novel, fetched);
    SubseqTransitive(merged, stored + novel, stored + fetched);
    SubseqMembers(merged, stored + fetched);
    merged
  }

  /**
   * Every stored order that is not done survives unchanged, and whatever
   * follows the survivors is a fetched order whose key no stored order has:
   * a stored order (with its collected flags) always wins over a fetched copy,
   * and every fetched order that is not done and has an unseen key is added.
   */
  lemma MergeStoredWins(stored: seq<Order>, fetched: seq<Order>, done: set<string>)
    ensures forall s :: s in stored && !IsDone(s, done) ==> s in Merge(stored, fetched, done)
    ensures forall f :: f in fetched && MergeKey(f) !in Keys(stored) && !IsDone(f, done) ==>
      f in Merge(stored, fetched, done)
    ensures var n := |NotDone(stored, done)|;
      forall k :: n <= k < |Merge(stored, fetched, done)| ==>
        var o := Merge(stored, fetched, done)[k];
        o in fetched && MergeKey(o) !in Keys(stored)
  {
    var novel := Unseen(fetched, Keys(stored));
    NotDoneAppend(stored, novel, done);
    var merged := Merge(stored, fetched, done);
    var n := |NotDone(stored, done)|;
    forall k | n <= k < |merged|
      ensures merged[k] in fetched && MergeKey(merged[k]) !in Keys(stored)
    {
      assert merged[k] == NotDone(novel, done)[k - n];
    }
  }

  /** Two copies of one order in the same fetched batch are both kept. */
  lemma BatchDuplicatesKept(o: Order, done: set<string>)
    requires !IsDone(o, done)
    ensures Merge([], [o, o], done) == [o, o]
  {
    assert Keys([]) == {};
    assert [o, o][..1] == [o];
    assert Unseen([o, o], {}) == [o, o];
    assert [] + [o, o] == [o, o];
    NotDoneKeepsAll([o, o], done);
  }

  /** Merging the same batch again changes nothing, provided no done order is stored. */
  lemma MergeIdempotent(stored: seq<Order>, fetched: seq<Order>, done: set<string>)
    requires forall s :: s in stored ==> !IsDone(s, done)
    ensures Merge(Merge(stored, fetched, done), fetched, done) == Merge(stored, fetched, done)
  {
    var m := Merge(stored, fetched, done);
    var novel := Unseen(fetched, Keys(stored));
    NotDoneAppend(stored, novel, done);
    NotDoneKeepsAll(stored, done);
    assert m == stored + NotDone(novel, done);
    var again := Unseen(fetched, Keys(m));
    forall k | k in Keys(stored)
      ensures k in Keys(m)
    {
      var s :| s in stored && MergeKey(s) == k;
      assert s in m;
    }
    forall o | o in again
      ensures IsDone(o, done)
    {
      assert o in novel;
      assert !IsDone(o, done) ==> o in m;
    }
    NotDoneAppend(m, again, done);
    NotDoneKeepsAll(m, done);
    NotDoneDropsAll(again, done);
  }

  /**
   * Without that proviso the merge is not idempotent: a stored order dropped
   * as done no longer blocks a fetched order with the same key.
   */
  lemma MergeNotIdempotentWithDoneStored()
    ensures var s := Order(Str("1"), Str("X"), Absent, Absent, None, Absent, "", "", "", Absent, []);
      var f := s.(orderNumber := Str("Y"));
      Merge([s], [f], {"X"}) == [] && Merge(Merge([s], [f], {"X"}), [f], {"X"}) == [f]
  {
    var s := Order(Str("1"), Str("X"), Absent, Absent, None, Absent, "", "", "", Absent, []);
    var f := s.(orderNumber := Str("Y"));
    assert MergeKey(f) == MergeKey(s) && MergeKey(s) in Keys([s]);
    assert Unseen([f], Keys([s])) == [];
    assert [s] + [] == [s];
    assert [s][..0] == [];
    assert NotDone([s], {"X"}) == [];
    assert Keys([]) == {};
    assert Unseen([f], {}) == [f];
    assert [] + [f] == [f];
    assert [f][..0] == [];
    assert NotDone([f], {"X"}) == [f];
  }

  /** `merge_and_save_orders`: the store is rewritten with the merge of what both files held. */
  method MergeAndSaveOrders(disk: Disk, newOrders: seq<Order>)
    modifies disk
    ensures disk.output == Some(Merge(old(disk.Orders()), newOrders, DoneSet(old(disk.done))))
    ensures disk.done == old(disk.done) && disk.archive == old(disk.archive)
    ensures disk.locations == old(disk.locations)
  {
    var done := DoneSet(disk.done);
    var oldOrders := disk.Orders();
    disk.SaveOrders(Merge(oldOrders, newOrders, done));
  }

  // ------------------------------------------------------------------ paging

  const PageLimit: nat := 200

  /**
   * The remote source as a finite list of pages: page p (from 1) is
   * `pages[p - 1]`, and every page beyond them, like a failed request, is empty.
   */
  function FetchPage(pages: seq<seq<Order>>, page: int): seq<Order>
  {
    if 1 <= page <= |pages| then pages[page - 1] else []
  }

  function Concat(pages: seq<seq<Order>>): seq<Order>
    decreases |pages|
  {
    if pages == [] then [] else Concat(pages[..|pages| - 1]) + pages[|pages| - 1]
  }

  /** How many pages the loop appends: up to the first empty page or the first short one. */
  function PagesRead(pages: seq<seq<Order>>): (k: nat)
    ensures k <= |pages|
    decreases |pages|
  {
    if pages == [] || pages[0] == [] then 0
    else if |pages[0]| < PageLimit then 1
    else 1 + PagesRead(pages[1..])
  }

  /**
   * The pages read are non-empty, all but the last are full, and reading
   * stopped for a reason: no more pages, an empty page, or a short page.
   */
  lemma {:induction false} PagesReadStops(pages: seq<seq<Order>>)
    ensures var k := PagesRead(pages);
      && (forall j :: 0 <= j < k ==> pages[j] != [])
      && (forall j :: 0 <= j < k - 1 ==> |pages[j]| >= PageLimit)
      && (k == |pages| || pages[k] == [] || (k > 0 && |pages[k - 1]| < PageLimit))
    decreases |pages|
  {
    if pages != [] && pages[0] != [] && |pages[0]| >= PageLimit {
      PagesReadStops(pages[1..]);
    }
  }

  lemma {:induction false} ConcatSnoc(pages: seq<seq<Order>>, k: nat)
    requires k < |pages|
    ensures Concat(pages[..k + 1]) == Concat(pages[..k]) + pages[k]
  {
    assert pages[..k + 1][..k] == pages[..k];
  }

  /**
   * `entegrabilisim_get_all_orders`: fetch page 1, 2, ... and append each,
   * stopping after an empty page or one with fewer than 200 orders.
   */
  method GetAllOrders(pages: seq<seq<Order>>) returns (allOrders: seq<Order>)
    ensures allOrders == Concat(pages[..PagesRead(pages)])
  {
    allOrders := [];
    var page := 1;
    while true
      invariant 1 <= page <= |pages| + 1
      invariant allOrders == Concat(pages[..page - 1])
      invariant PagesRead(pages) == page - 1 + PagesRead(pages[page - 1..])
      decreases |pages| + 1 - page
    {
      var orders := FetchPage(pages, page);
      if orders == [] {
        assert page - 1 == |pages| || pages[page - 1..][0] == [];
        return;
      }
      ConcatSnoc(pages, page - 1);
      allOrders := allOrders + orders;
      if |orders| < PageLimit {
        assert pages[page - 1..][0] == orders;
        return;
      }
      assert pages[page - 1..][1..] == pages[page..];
      page := page + 1;
    }
  }

  // ------------------------------------------------------------------ archive

  /**
   * An order goes to the archive when its timestamp parses, its status is
   * exactly the string "4" and it is at least `days` whole days old.
   */
  predicate Archivable(o: Order, days: int, now: int)
  {
    o.datetime.Some? && o.status == Str("4") && WholeDays(now - o.datetime.value) >= days
  }

  function KeepPart(orders: seq<Order>, days: int, now: int): seq<Order>
    decreases |orders|
  {
    if orders == [] then []
    else
      var o := orders[|orders| - 1];
      KeepPart(orders[..|orders| - 1], days, now) + (if Archivable(o, days, now) then [] else [o])
  }

  function ArchivePart(orders: seq<Order>, days: int, now: int): seq<Order>
    decreases |orders|
  {
    if orders == [] then []
    else
      var o := orders[|orders| - 1];
      ArchivePart(orders[..|orders| - 1], days, now) + (if Archivable(o, days, now) then [o] else [])
  }

  /**
   * Keep and archive split the orders: each in input order, together a
   * permutation of the input, and an order lands in the archive exactly when it
   * is archivable, so one whose date does not parse is always kept.
   */
  lemma {:induction false} ArchivePartition(orders: seq<Order>, days: int, now: int)
    ensures multiset(KeepPart(orders, days, now)) + multiset(ArchivePart(orders, days, now)) == multiset(orders)
    ensures forall o :: o in ArchivePart(orders, days, now) <==> o in orders && Archivable(o, days, now)
    ensures forall o :: o in KeepPart(orders, days, now) <==> o in orders && !Archivable(o, days, now)
    decreases |orders|
  {
    if orders != [] {
      var init := orders[..|orders| - 1];
      var o := orders[|orders| - 1];
      assert orders == init + [o];
      ArchivePartition(init, days, now);
    }
  }

  /** Both halves keep the relative order of the input. */
  lemma {:induction false} ArchivePartsInOrder(orders: seq<Order>, days: int, now: int)
    ensures IsSubseq(KeepPart(orders, days, now), orders)
    ensures IsSubseq(ArchivePart(orders, days, now), orders)
    decreases |orders|
  {
    if orders != [] {
      var init := orders[..|orders| - 1];
      var o := orders[|orders| - 1];
      assert orders == init + [o];
      ArchivePartsInOrder(init, days, now);
      if Archivable(o, days, now) {
        assert KeepPart(orders, days, now) == KeepPart(init, days, now) + [] == KeepPart(init, days, now);
        SubseqSkip(KeepPart(init, days, now), init, o);
        SubseqKeep(ArchivePart(init, days, now), init, o);
      } else {
        assert ArchivePart(orders, days, now) == ArchivePart(init, days, now) + [] == ArchivePart(init, days, now);
        SubseqKeep(KeepPart(init, days, now), init, o);
        SubseqSkip(ArchivePart(init, days, now), init, o);
      }
    }
  }

  /** The loop of `archive_old_orders`: each order is appended to `keep` or to `archive`. */
  method Partition(orders: seq<Order>, days: int, now: int) returns (keep: seq<Order>, archive: seq<Order>)
    ensures keep == KeepPart(orders, days, now)
    ensures archive == ArchivePart(orders, days, now)
  {
    keep, archive := [], [];
    for i := 0 to |orders|
      invariant keep == KeepPart(orders[..i], days, now)
      invariant archive == ArchivePart(orders[..i], days, now)
    {
      var o := orders[i];
      assert orders[..i + 1][..i] == orders[..i];
      if o.datetime.Some? {
        if o.status == Str("4") && WholeDays(now - o.datetime.value) >= days {
          archive := archive + [o];
        } else {
          keep := keep + [o];
        }
      } else {
        keep := keep + [o];
      }
    }
    assert orders[..|orders|] == orders;
  }

  /**
   * `archive_old_orders`: the store keeps the orders that stay, the archive file
   * is replaced by the ones that go; an unreadable store counts as empty.
   */
  method ArchiveOldOrders(disk: Disk, days: int, now: int)
    modifies disk
    ensures disk.output == Some(KeepPart(old(disk.Orders()), days, now))
    ensures disk.archive == Some(ArchivePart(old(disk.Orders()), days, now))
    ensures disk.done == old(disk.done) && disk.locations == old(disk.locations)
  {
    var orders := disk.Orders();
    var keep, archive := Partition(orders, days, now);
    disk.output := Some(keep);
    disk.archive := Some(archive);
  }
}
