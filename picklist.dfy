/**
 * The pick-list page of the web servers: the warehouse view of the orders
 * with each product's shelf location and whether all of its lines are
 * collected. The first server only marks the rows; the second also drops the
 * rows that are fully collected.
 */
module Picklist {
  import opened Wrappers
  import opened Seqs
  import opened Records
  import opened Depo

  /** A pick-list row: the product, `depo_yeri` and `_collected`. */
  datatype PickRow = PickRow(product: Product, depoYeri: string, collected: bool)

  /** `all(pr.get("collected", False) for (_o, pr) in u["orders"])`. */
  predicate AllCollected(pairs: seq<Pair>)
  {
    forall i :: 0 <= i < |pairs| ==> IsCollected(pairs[i].item)
  }

  /** `locs.get(name, "")`. */
  function LocationOf(locs: map<string, string>, name: string): (loc: string)
    ensures name in locs ==> loc == locs[name]
    ensures name !in locs ==> loc == ""
  {
    if name in locs then locs[name] else ""
  }

  function MarkRow(u: Product, locs: map<string, string>): PickRow
  {
    PickRow(u, LocationOf(locs, u.name), AllCollected(u.pairs))
  }

  function MarkRows(urunler: seq<Product>, locs: map<string, string>): (rows: seq<PickRow>)
    ensures |rows| == |urunler|
    ensures forall i :: 0 <= i < |rows| ==> rows[i] == MarkRow(urunler[i], locs)
  {
    seq(|urunler|, i requires 0 <= i < |urunler| => MarkRow(urunler[i], locs))
  }

  predicate Unfinished(r: PickRow)
  {
    !r.collected
  }

  /** The products `get_depo_urunler` lists for the page's filters. */
  function Products(orders: seq<Order>, platform: string, start: Option<int>, end: Option<int>,
                    q: string, now: int): seq<Product>
  {
    Search(SortByName(Group(Contributions(orders, platform, start, end, now))), q)
  }

  /** A filter box's date as `get_depo_urunler` takes it: a parsed day or no bound. */
  function DayOf(t: DateArg): Option<int>
  {
    if t.Day? then Some(t.t) else None
  }

  /** The marking loop of the first server's pick list. */
  method MarkPicklist(urunler: seq<Product>, locs: map<string, string>) returns (rows: seq<PickRow>)
    ensures rows == MarkRows(urunler, locs)
  {
    rows := [];
    for i := 0 to |urunler|
      invariant rows == MarkRows(urunler[..i], locs)
    {
      var u := urunler[i];
      var allCollected := IsChecked(u.pairs);
      rows := rows + [PickRow(u, LocationOf(locs, u.name), allCollected)];
    }
    assert urunler[..|urunler|] == urunler;
  }

  /** The loop of the second server's pick list: mark each row, keep it only if some line is open. */
  method UnfinishedRows(urunler: seq<Product>, locs: map<string, string>) returns (filtered: seq<PickRow>)
    ensures filtered == Filter(MarkRows(urunler, locs), Unfinished)
  {
    filtered := [];
    ghost var rows := MarkRows(urunler, locs);
    for i := 0 to |urunler|
      invariant filtered == Filter(rows[..i], Unfinished)
    {
      assert rows[..i + 1] == rows[..i] + [rows[i]];
      var u := urunler[i];
      var allCollected := IsChecked(u.pairs);
      if !allCollected {
        filtered := filtered + [PickRow(u, LocationOf(locs, u.name), allCollected)];
      }
    }
    assert rows[..|urunler|] == rows;
  }

  /**
   * The second server's pick list shows exactly the listed products with an
   * uncollected line, each with its shelf (or "") and in the listed order.
   */
  lemma UnfinishedRowsSpec(urunler: seq<Product>, locs: map<string, string>)
    ensures IsSubseq(Filter(MarkRows(urunler, locs), Unfinished), MarkRows(urunler, locs))
    ensures forall r :: r in Filter(MarkRows(urunler, locs), Unfinished) <==>
      exists i :: 0 <= i < |urunler| && r == MarkRow(urunler[i], locs) && !AllCollected(urunler[i].pairs)
  {
    var rows := MarkRows(urunler, locs);
    forall r
      ensures r in Filter(rows, Unfinished) <==>
        exists i :: 0 <= i < |urunler| && r == MarkRow(urunler[i], locs) && !AllCollected(urunler[i].pairs)
    {
      if r in Filter(rows, Unfinished) {
        var i :| 0 <= i < |rows| && rows[i] == r;
        assert r == MarkRow(urunler[i], locs);
      }
      if exists i :: 0 <= i < |urunler| && r == MarkRow(urunler[i], locs) && !AllCollected(urunler[i].pairs) {
        var i :| 0 <= i < |urunler| && r == MarkRow(urunler[i], locs) && !AllCollected(urunler[i].pairs);
        assert rows[i] == r;
      }
    }
  }
}
