/**
 * depo.py: the warehouse view. Open orders are filtered by platform and date,
 * their line items are grouped per product (name and barcode), the products
 * are sorted by name and filtered by a search term.
 */
module Depo {
  import opened Wrappers
  import opened Text
  import opened Seqs
  import opened Records
  import opened Utils

  // ------------------------------------------------------------------ platforms

  /** The marketplaces `normalize_platform` recognises, in the order it tries them. */
  const KnownPlatforms: seq<string> :=
    ["trendyol", "hepsiburada", "amazon", "n11", "ciceksepeti", "pazarama", "idefix"]

  /** The first of `known` that occurs in `p`. */
  function FirstKnownIn(p: string, known: seq<string>): Option<string>
    decreases |known|
  {
    if known == [] then None
    else if Contains(p, known[0]) then Some(known[0])
    else FirstKnownIn(p, known[1..])
  }

  /** The first name found is one of the names and is in `p`; none found means none is in `p`. */
  lemma {:induction false} FirstKnownInSpec(p: string, known: seq<string>)
    ensures var r := FirstKnownIn(p, known);
      && (r.Some? ==> r.value in known && Contains(p, r.value))
      && (r.None? ==> forall i :: 0 <= i < |known| ==> !Contains(p, known[i]))
    decreases |known|
  {
    if known != [] && !Contains(p, known[0]) {
      FirstKnownInSpec(p, known[1..]);
      forall i | 0 <= i < |known|
        ensures FirstKnownIn(p, known).None? ==> !Contains(p, known[i])
      {
        if i > 0 {
          assert known[i] == known[1..][i - 1];
        }
      }
    }
  }

  /**
   * `normalize_platform`: the stripped, lower-cased name, replaced by the
   * first marketplace name it contains (the source's chain of tests, in list order).
   */
  function NormalizePlatform(plat: string): string
  {
    var p := Lower(Strip(plat));
    FirstKnownIn(p, KnownPlatforms).GetOr(p)
  }

  /** A marketplace name is found in the cleaned name; any other result is the cleaned name, holding none. */
  lemma NormalizePlatformSpec(plat: string)
    ensures var r := NormalizePlatform(plat);
      && (r in KnownPlatforms ==> Contains(Lower(Strip(plat)), r))
      && (r !in KnownPlatforms ==>
            r == Lower(Strip(plat)) && forall i :: 0 <= i < |KnownPlatforms| ==> !Contains(r, KnownPlatforms[i]))
  {
    FirstKnownInSpec(Lower(Strip(plat)), KnownPlatforms);
  }

  /** No marketplace name contains a name tried before it. */
  lemma KnownPlatformsUnambiguous(i: nat, j: nat)
    requires j < i < |KnownPlatforms|
    ensures !Contains(KnownPlatforms[i], KnownPlatforms[j])
  {
    var ks := KnownPlatforms;
    if j == 0 {
      AbsentChar(ks[i], ks[j], 'y');
    } else if j == 1 {
      AbsentChar(ks[i], ks[j], 'h');
    } else if j == 2 {
      AbsentChar(ks[i], ks[j], 'o');
    } else if j == 3 {
      AbsentChar(ks[i], ks[j], '1');
    } else if j == 4 {
      AbsentChar(ks[i], ks[j], 'c');
    } else {
      AbsentChar(ks[i], ks[j], 'p');
    }
  }

  lemma FirstKnownOfKnown(i: nat)
    requires i < |KnownPlatforms|
    ensures FirstKnownIn(KnownPlatforms[i], KnownPlatforms) == Some(KnownPlatforms[i])
  {
    var ks := KnownPlatforms;
    forall j | 0 <= j < i
      ensures !Contains(ks[i], ks[j])
    {
      KnownPlatformsUnambiguous(i, j);
    }
    ContainsItself(ks[i]);
    FirstKnownSkips(ks[i], ks, i);
  }

  lemma {:induction false} FirstKnownSkips(p: string, known: seq<string>, i: nat)
    requires i < |known| && Contains(p, known[i])
    requires forall j :: 0 <= j < i ==> !Contains(p, known[j])
    ensures FirstKnownIn(p, known) == Some(known[i])
    decreases i
  {
    if i > 0 {
      FirstKnownSkips(p, known[1..], i - 1);
    }
  }

  /** A name made of lower-case ASCII letters and digits is its own lower-cased, stripped form. */
  lemma PlainName(s: string)
    requires forall k :: 0 <= k < |s| ==> 'a' <= s[k] <= 'z' || '0' <= s[k] <= '9'
    ensures Lower(Strip(s)) == s
  {
    StripStripped(s);
    LowerFixed(s);
  }

  lemma NormalizeKnown(i: nat)
    requires i < |KnownPlatforms|
    ensures NormalizePlatform(KnownPlatforms[i]) == KnownPlatforms[i]
  {
    PlainName(KnownPlatforms[i]);
    FirstKnownOfKnown(i);
  }

  /** Normalising twice is normalising once. */
  lemma NormalizeIdempotent(plat: string)
    ensures NormalizePlatform(NormalizePlatform(plat)) == NormalizePlatform(plat)
  {
    var r := NormalizePlatform(plat);
    NormalizePlatformSpec(plat);
    if r in KnownPlatforms {
      var i :| 0 <= i < |KnownPlatforms| && KnownPlatforms[i] == r;
      NormalizeKnown(i);
    } else {
      LowerStripped(Strip(plat));
      StripStripped(r);
      LowerIdempotent(Strip(plat));
    }
  }

  /** `kisa_ad`: names longer than 46 characters are cut to 46 and marked with "...". */
  function KisaAd(ad: string): (r: string)
    ensures |ad| <= 46 ==> r == ad
    ensures |ad| > 46 ==> |r| == 49 && ad[..46] <= r && r[46..] == "..."
  {
    if |ad| > 46 then ad[..46] + "..." else ad
  }

  lemma KisaAdIdempotent(ad: string)
    ensures KisaAd(KisaAd(ad)) == KisaAd(ad)
  {
    if |ad| > 46 {
      assert KisaAd(ad)[..46] == ad[..46];
    }
  }

  // ------------------------------------------------------------------ which orders count

  const ClosedKeywords: seq<string> := ["tamamlandı", "teslim edildi", "iptal", "iptal edildi"]

  /** No closing keyword occurs in the lower-cased status name. */
  predicate StatusOpen(o: Order)
  {
    forall i :: 0 <= i < |ClosedKeywords| ==> !Contains(Lower(o.statusName), ClosedKeywords[i])
  }

  /** The platform as the view shows it: normalised, then upper-cased. */
  function PlatformOf(o: Order): string
  {
    Upper(NormalizePlatform(o.entegration))
  }

  /** An empty filter, or one reading "TÜMÜ" once stripped and upper-cased, admits every order. */
  predicate PlatformAdmits(o: Order, platformFilter: string)
  {
    platformFilter == "" || Upper(Strip(platformFilter)) == "TÜMÜ"
    || PlatformOf(o) == Upper(Strip(platformFilter))
  }

  /** Inclusive bounds; an order whose timestamp does not parse is never excluded by date. */
  predicate InDateRange(o: Order, start: Option<int>, end: Option<int>)
  {
    o.datetime.None? ||
    ((start.None? || o.datetime.value >= start.value) && (end.None? || o.datetime.value <= end.value))
  }

  predicate Passes(o: Order, platformFilter: string, start: Option<int>, end: Option<int>)
  {
    StatusOpen(o) && PlatformAdmits(o, platformFilter) && InDateRange(o, start, end)
  }

  /** Whether a product row shows as ticked: every line filed under it is collected. */
  method IsChecked(pairs: seq<Pair>) returns (checked: bool)
    ensures checked <==> forall i :: 0 <= i < |pairs| ==> IsCollected(pairs[i].item)
  {
    for i := 0 to |pairs|
      invariant forall k :: 0 <= k < i ==> IsCollected(pairs[k].item)
    {
      if !IsCollected(pairs[i].item) {
        return false;
      }
    }
    return true;
  }

  // ------------------------------------------------------------------ grouping

  /**
   * One line item together with the order it belongs to, and what the loop
   * works out from the order for the line: its normalised, upper-cased
   * platform and its age label.
   */
  datatype Pair = Pair(order: Order, item: LineItem, platform: string, daysAgo: string)

  /** An entry of a platform bucket: the line's quantity and its order number. */
  datatype Share = Share(adet: int, siparisNo: Field)

  datatype Bucket = Bucket(platform: string, shares: seq<Share>)

  /** One row of the warehouse view. */
  datatype Product = Product(name: string, barcode: string, stockCode: string, adet: int,
                             daysAgo: string, pairs: seq<Pair>, buckets: seq<Bucket>)

  /**
   * The order number a bucket shows: `order_number`, else `order_no`, else
   * `id`, else "", each taken when its key is present (even when null).
   */
  function SiparisNo(o: Order): (r: Field)
    ensures r != Absent
    ensures r == Str("") || r == o.orderNumber || r == o.orderNo || r == o.id
    ensures !o.orderNumber.Absent? ==> r == o.orderNumber
    ensures o.orderNumber.Absent? && !o.orderNo.Absent? ==> r == o.orderNo
    ensures o.orderNumber.Absent? && o.orderNo.Absent? && !o.id.Absent? ==> r == o.id
    ensures o.orderNumber.Absent? && o.orderNo.Absent? && o.id.Absent? ==> r == Str("")
  {
    o.orderNumber.GetOr(o.orderNo.GetOr(o.id.GetOr(Str(""))))
  }

  function ShareOf(p: Pair): Share
  {
    Share(Quantity(p.item), SiparisNo(p.order))
  }

  /** Products are grouped by (name, barcode). */
  function KeyOf(p: Pair): (string, string)
  {
    (p.item.name, p.item.barcode)
  }

  function Key(e: Product): (string, string)
  {
    (e.name, e.barcode)
  }

  /** Where the product with this key sits, or -1. */
  function IndexOf(ps: seq<Product>, key: (string, string)): (k: int)
    ensures -1 <= k < |ps|
    ensures k == -1 <==> forall i :: 0 <= i < |ps| ==> Key(ps[i]) != key
    ensures k >= 0 ==> Key(ps[k]) == key
    decreases |ps|
  {
    if ps == [] then -1
    else if Key(ps[|ps| - 1]) == key then |ps| - 1
    else IndexOf(ps[..|ps| - 1], key)
  }

  /** Files a share under its platform: appended to that bucket, or in a new bucket at the end. */
  function AddShare(bs: seq<Bucket>, platform: string, s: Share): seq<Bucket>
    decreases |bs|
  {
    if bs == [] then [Bucket(platform, [s])]
    else if bs[0].platform == platform then [bs[0].(shares := bs[0].shares + [s])] + bs[1..]
    else [bs[0]] + AddShare(bs[1..], platform, s)
  }

  /** The entry `get_depo_urunler` creates for a key it has not seen. */
  function Start(p: Pair): Product
  {
    Product(p.item.name, p.item.barcode, p.item.stockCode, 0, p.daysAgo, [], [])
  }

  /** What one more line does to its product's entry. */
  function Update(e: Product, p: Pair): Product
  {
    var d := p.daysAgo;
    var platform := p.platform;
    e.(adet := e.adet + Quantity(p.item),
       pairs := e.pairs + [p],
       daysAgo := if LexLess(d, e.daysAgo) then d else e.daysAgo,
       buckets := if platform != "" then AddShare(e.buckets, platform, ShareOf(p)) else e.buckets)
  }

  function AddPair(ps: seq<Product>, p: Pair): seq<Product>
  {
    var k := IndexOf(ps, KeyOf(p));
    if k < 0 then ps + [Update(Start(p), p)] else ps[k := Update(ps[k], p)]
  }

  /** The products after filing every pair in turn, in order of first appearance. */
  function Group(pairs: seq<Pair>): seq<Product>
    decreases |pairs|
  {
    if pairs == [] then []
    else AddPair(Group(pairs[..|pairs| - 1]), pairs[|pairs| - 1])
  }

  /** The pair the loop files for one line of an order, `now` being the time of the call. */
  function LineOf(o: Order, item: LineItem, now: int): Pair
  {
    Pair(o, item, PlatformOf(o), CalcDaysAgo(o.datetime, now))
  }

  /** The lines of one order, each with its order. */
  function Lines(o: Order, now: int): (r: seq<Pair>)
    ensures |r| == |o.products|
    ensures forall i :: 0 <= i < |r| ==> r[i].order == o && r[i].item == o.products[i]
  {
    seq(|o.products|, i requires 0 <= i < |o.products| => LineOf(o, o.products[i], now))
  }

  lemma LineAt(o: Order, now: int, i: int)
    requires 0 <= i < |o.products|
    ensures Lines(o, now)[i] == LineOf(o, o.products[i], now)
  {
  }

  /** The lines of the orders that `keep` admits, in order. */
  function Flat(orders: seq<Order>, keep: Order -> bool, now: int): seq<Pair>
    decreases |orders|
  {
    if orders == [] then []
    else
      var o := orders[|orders| - 1];
      Flat(orders[..|orders| - 1], keep, now) + (if keep(o) then Lines(o, now) else [])
  }

  lemma {:induction false} FlatMembers(orders: seq<Order>, keep: Order -> bool, now: int)
    ensures forall p :: p in Flat(orders, keep, now) <==> p.order in orders && keep(p.order) && p in Lines(p.order, now)
    decreases |orders|
  {
    if orders != [] {
      var init := orders[..|orders| - 1];
      var o := orders[|orders| - 1];
      assert orders == init + [o];
      FlatMembers(init, keep, now);
      var c := Flat(init, keep, now);
      assert Flat(orders, keep, now) == c + (if keep(o) then Lines(o, now) else []);
    }
  }

  /** The lines of an order are its items, each with the platform and label worked out from the order. */
  lemma LinesMembers(o: Order, now: int)
    ensures forall p :: p in Lines(o, now) <==> p.item in o.products && p == LineOf(o, p.item, now)
  {
    forall p: Pair | p in Lines(o, now)
      ensures p == LineOf(o, p.item, now)
    {
      var i :| 0 <= i < |o.products| && Lines(o, now)[i] == p;
      LineAt(o, now, i);
    }
    forall p: Pair | p.item in o.products && p == LineOf(o, p.item, now)
      ensures p in Lines(o, now)
    {
      var i :| 0 <= i < |o.products| && o.products[i] == p.item;
      LineAt(o, now, i);
    }
  }

  /** The three tests at the head of the order loop, as a filter on orders. */
  function Admits(platformFilter: string, start: Option<int>, end: Option<int>): Order -> bool
  {
    o => Passes(o, platformFilter, start, end)
  }

  /** The lines of the orders that pass the filters, in order. */
  function Contributions(orders: seq<Order>, platformFilter: string, start: Option<int>, end: Option<int>, now: int): seq<Pair>
  {
    Flat(orders, Admits(platformFilter, start, end), now)
  }

  /** A line is filed exactly when its order is one of the input orders and passes the filters. */
  lemma ContributionsFromPassingOrders(orders: seq<Order>, platformFilter: string, start: Option<int>, end: Option<int>, now: int)
    ensures forall p :: p in Contributions(orders, platformFilter, start, end, now) <==>
      p.order in orders && Passes(p.order, platformFilter, start, end) && p.item in p.order.products
      && p == LineOf(p.order, p.item, now)
  {
    FlatMembers(orders, Admits(platformFilter, start, end), now);
    forall p: Pair
      ensures p in Lines(p.order, now) <==> p.item in p.order.products && p == LineOf(p.order, p.item, now)
    {
      LinesMembers(p.order, now);
    }
  }

  // ------------------------------------------------------------------ what each product holds

  function WithKey(pairs: seq<Pair>, key: (string, string)): seq<Pair>
    decreases |pairs|
  {
    if pairs == [] then []
    else
      var p := pairs[|pairs| - 1];
      WithKey(pairs[..|pairs| - 1], key) + (if KeyOf(p) == key then [p] else [])
  }

  lemma {:induction false} WithKeyMembers(pairs: seq<Pair>, key: (string, string))
    ensures forall q :: q in WithKey(pairs, key) <==> q in pairs && KeyOf(q) == key
    decreases |pairs|
  {
    if pairs != [] {
      WithKeyMembers(pairs[..|pairs| - 1], key);
      assert pairs == pairs[..|pairs| - 1] + [pairs[|pairs| - 1]];
    }
  }

  function SumQty(pairs: seq<Pair>): int
    decreases |pairs|
  {
    if pairs == [] then 0 else SumQty(pairs[..|pairs| - 1]) + Quantity(pairs[|pairs| - 1].item)
  }

  /** The string-least age label, the first one among equals. */
  function MinLabel(pairs: seq<Pair>): string
    requires pairs != []
    decreases |pairs|
  {
    if |pairs| == 1 then pairs[0].daysAgo
    else
      var m := MinLabel(pairs[..|pairs| - 1]);
      var d := pairs[|pairs| - 1].daysAgo;
      if LexLess(d, m) then d else m
  }

  /** The label kept is one of the pairs' labels, and no pair's label sorts before it. */
  lemma {:induction false} MinLabelIsLeast(pairs: seq<Pair>)
    requires pairs != []
    ensures exists i :: 0 <= i < |pairs| && pairs[i].daysAgo == MinLabel(pairs)
    ensures forall i :: 0 <= i < |pairs| ==> !LexLess(pairs[i].daysAgo, MinLabel(pairs))
    decreases |pairs|
  {
    var n := |pairs|;
    if n == 1 {
      LexIrreflexive(pairs[0].daysAgo);
    } else {
      var init := pairs[..n - 1];
      MinLabelIsLeast(init);
      var m := MinLabel(init);
      var d := pairs[n - 1].daysAgo;
      var k :| 0 <= k < n - 1 && init[k].daysAgo == m;
      assert pairs[k].daysAgo == m;
      forall i | 0 <= i < n
        ensures !LexLess(pairs[i].daysAgo, MinLabel(pairs))
      {
        if i < n - 1 {
          assert pairs[i] == init[i];
          if LexLess(d, m) {
            if LexLess(pairs[i].daysAgo, d) {
              LexTransitive(pairs[i].daysAgo, d, m);
            }
          }
        } else if LexLess(d, m) {
          LexIrreflexive(d);
        } else if d != m {
          LexTotal(d, m);
          LexAsymmetric(m, d);
        } else {
          LexIrreflexive(d);
        }
      }
    }
  }

  /** The label of an order placed ten days before day ten. */
  lemma TenDaysLabel()
    ensures CalcDaysAgo(Some(0), 864000) == "-10 gün"
  {
    assert WholeDays(864000 - 0) == 10;
    assert NatToString(10) == "10" by {
      assert NatToString(1) == "1" && NatToString(0) == "0";
    }
  }

  /** The label of an order placed two days before day ten. */
  lemma TwoDaysLabel()
    ensures CalcDaysAgo(Some(691200), 864000) == "-2 gün"
  {
    assert WholeDays(864000 - 691200) == 2;
    assert NatToString(2) == "2";
  }

  /** The label of an order placed one day before day ten. */
  lemma OneDayLabel()
    ensures CalcDaysAgo(Some(777600), 864000) == "-1 gün"
  {
    assert WholeDays(864000 - 777600) == 1;
    assert NatToString(1) == "1";
  }

  /** "-10 gün" sorts before "-2 gün" and "-1 gün" sorts before "-2 gün". */
  lemma LabelTextOrder()
    ensures LexLess("-10 gün", "-2 gün") && LexLess("-1 gün", "-2 gün")
  {
    assert LexLess("-10 gün", "-2 gün") by {
      assert ("-10 gün")[1..] == "10 gün" && ("-2 gün")[1..] == "2 gün";
    }
    assert LexLess("-1 gün", "-2 gün") by {
      assert ("-1 gün")[1..] == "1 gün" && ("-2 gün")[1..] == "2 gün";
    }
  }

  /**
   * The labels are compared as text, not as day counts: "-10 gün" sorts before
   * "-2 gün" (the older order's label is kept) but "-1 gün" also sorts before
   * "-2 gün" (the newer one's is), and the empty label of an unparsable date
   * sorts before every other.
   */
  lemma AgeLabelsCompareAsText()
    ensures var now := 10 * SecondsPerDay;
      var tenDays := CalcDaysAgo(Some(0), now);
      var twoDays := CalcDaysAgo(Some(8 * SecondsPerDay), now);
      var oneDay := CalcDaysAgo(Some(9 * SecondsPerDay), now);
      LexLess(tenDays, twoDays) && LexLess(oneDay, twoDays) && LexLess(CalcDaysAgo(None, now), oneDay)
  {
    TenDaysLabel();
    TwoDaysLabel();
    OneDayLabel();
    LabelTextOrder();
  }

  function SharesFor(pairs: seq<Pair>, platform: string): seq<Share>
    decreases |pairs|
  {
    if pairs == [] then []
    else
      var p := pairs[|pairs| - 1];
      SharesFor(pairs[..|pairs| - 1], platform) + (if p.platform == platform then [ShareOf(p)] else [])
  }

  /** The shares of the bucket for `platform`, [] when there is none. */
  function Lookup(bs: seq<Bucket>, platform: string): seq<Share>
    decreases |bs|
  {
    if bs == [] then []
    else if bs[0].platform == platform then bs[0].shares
    else Lookup(bs[1..], platform)
  }

  predicate DistinctPlatforms(bs: seq<Bucket>)
  {
    forall i, j :: 0 <= i < j < |bs| ==> bs[i].platform != bs[j].platform
  }

  lemma {:induction false} AddShareLookup(bs: seq<Bucket>, platform: string, s: Share)
    requires DistinctPlatforms(bs)
    ensures DistinctPlatforms(AddShare(bs, platform, s))
    ensures forall b :: b in AddShare(bs, platform, s) ==> b in bs || b.platform == platform
    ensures forall q :: Lookup(AddShare(bs, platform, s), q) == Lookup(bs, q) + (if q == platform then [s] else [])
    decreases |bs|
  {
    if bs != [] && bs[0].platform != platform {
      AddShareLookup(bs[1..], platform, s);
      var r := AddShare(bs, platform, s);
      forall i, j | 0 <= i < j < |r|
        ensures r[i].platform != r[j].platform
      {
        if i == 0 {
          assert r[j] in AddShare(bs[1..], platform, s);
          assert r[j] in bs[1..] || r[j].platform == platform;
          if r[j] in bs[1..] {
            var k :| 0 <= k < |bs[1..]| && bs[1..][k] == r[j];
            assert bs[k + 1] == r[j];
          }
        }
      }
    } else if bs != [] {
      var r := AddShare(bs, platform, s);
      forall i, j | 0 <= i < j < |r|
        ensures r[i].platform != r[j].platform
      {
        assert r[j] == bs[j];
        if i > 0 {
          assert r[i] == bs[i];
        }
      }
      forall q | q != platform
        ensures Lookup(r, q) == Lookup(bs, q)
      {
        assert r[1..] == bs[1..];
      }
    }
  }

  /** An entry agrees with the lines filed under it. */
  ghost predicate ProductValid(e: Product)
  {
    && e.pairs != []
    && (forall i :: 0 <= i < |e.pairs| ==> KeyOf(e.pairs[i]) == Key(e))
    && e.stockCode == e.pairs[0].item.stockCode
    && e.adet == SumQty(e.pairs)
    && e.daysAgo == MinLabel(e.pairs)
    && DistinctPlatforms(e.buckets)
    && (forall b :: b in e.buckets ==> b.platform != "")
    && (forall q :: q != "" ==> Lookup(e.buckets, q) == SharesFor(e.pairs, q))
  }

  lemma SnocFacts(pairs: seq<Pair>, p: Pair)
    requires pairs != []
    ensures SumQty(pairs + [p]) == SumQty(pairs) + Quantity(p.item)
    ensures var m := MinLabel(pairs); var d := p.daysAgo;
      MinLabel(pairs + [p]) == if LexLess(d, m) then d else m
    ensures forall q :: SharesFor(pairs + [p], q) == SharesFor(pairs, q) + (if p.platform == q then [ShareOf(p)] else [])
    ensures (pairs + [p])[0] == pairs[0]
  {
    assert (pairs + [p])[..|pairs|] == pairs;
  }

  lemma UpdateValid(e: Product, p: Pair)
    requires ProductValid(e) && Key(e) == KeyOf(p)
    ensures ProductValid(Update(e, p))
    ensures Update(e, p).pairs == e.pairs + [p]
  {
    var u := Update(e, p);
    SnocFacts(e.pairs, p);
    var platform := p.platform;
    if platform != "" {
      AddShareLookup(e.buckets, platform, ShareOf(p));
    }
    assert u.pairs == e.pairs + [p];
    forall i | 0 <= i < |u.pairs|
      ensures KeyOf(u.pairs[i]) == Key(u)
    {
      if i < |e.pairs| {
        assert u.pairs[i] == e.pairs[i];
      }
    }
  }

  lemma StartValid(p: Pair)
    ensures ProductValid(Update(Start(p), p))
    ensures Update(Start(p), p).pairs == [p]
  {
    var u := Update(Start(p), p);
    assert [p][..0] == [];
    LexIrreflexive(p.daysAgo);
    var platform := p.platform;
    if platform != "" {
      AddShareLookup([], platform, ShareOf(p));
    }
    forall q | q != ""
      ensures Lookup(u.buckets, q) == SharesFor([p], q)
    {
    }
  }

  predicate KeysDistinct(ps: seq<Product>)
  {
    forall i, j :: 0 <= i < j < |ps| ==> Key(ps[i]) != Key(ps[j])
  }

  ghost predicate AllValid(ps: seq<Product>)
  {
    forall i :: 0 <= i < |ps| ==> ProductValid(ps[i])
  }

  /** Each product's lines are exactly the pairs with its key, in order. */
  predicate PairsMatch(ps: seq<Product>, pairs: seq<Pair>)
  {
    forall i :: 0 <= i < |ps| ==> ps[i].pairs == WithKey(pairs, Key(ps[i]))
  }

  predicate Covers(ps: seq<Product>, pairs: seq<Pair>)
  {
    forall p :: p in pairs ==> IndexOf(ps, KeyOf(p)) >= 0
  }

  /**
   * The grouping invariant: one product per (name, barcode) key, each product
   * agrees with its lines, its lines are exactly the pairs with its key, and
   * every pair has its product.
   */
  ghost predicate GroupInv(ps: seq<Product>, pairs: seq<Pair>)
  {
    KeysDistinct(ps) && AllValid(ps) && PairsMatch(ps, pairs) && Covers(ps, pairs)
  }

  lemma WithKeySnoc(pairs: seq<Pair>, p: Pair, key: (string, string))
    ensures KeyOf(p) == key ==> WithKey(pairs + [p], key) == WithKey(pairs, key) + [p]
    ensures KeyOf(p) != key ==> WithKey(pairs + [p], key) == WithKey(pairs, key)
  {
    assert (pairs + [p])[..|pairs|] == pairs;
  }

  lemma {:induction false} WithKeyNone(pairs: seq<Pair>, key: (string, string))
    requires forall i :: 0 <= i < |pairs| ==> KeyOf(pairs[i]) != key
    ensures WithKey(pairs, key) == []
    decreases |pairs|
  {
    if pairs != [] {
      WithKeyNone(pairs[..|pairs| - 1], key);
    }
  }

  lemma NewKeyValid(ps: seq<Product>, p: Pair)
    requires AllValid(ps) && IndexOf(ps, KeyOf(p)) < 0
    ensures AllValid(AddPair(ps, p))
  {
    StartValid(p);
    assert AddPair(ps, p) == ps + [Update(Start(p), p)];
  }

  lemma KnownKeyValid(ps: seq<Product>, p: Pair)
    requires AllValid(ps) && IndexOf(ps, KeyOf(p)) >= 0
    ensures AllValid(AddPair(ps, p))
  {
    var k := IndexOf(ps, KeyOf(p));
    var r := AddPair(ps, p);
    UpdateValid(ps[k], p);
    assert r == ps[k := Update(ps[k], p)];
    forall i | 0 <= i < |r|
      ensures ProductValid(r[i])
    {
      if i != k {
        assert r[i] == ps[i];
      }
    }
  }

  /**
   * `r` is `ps` with `p` filed: appended to the lines of the product with its
   * key, or as a new product at the end; the other products untouched.
   */
  predicate Filed(ps: seq<Product>, p: Pair, r: seq<Product>)
  {
    var k := IndexOf(ps, KeyOf(p));
    && (k < 0 ==> |r| == |ps| + 1 && Key(r[|ps|]) == KeyOf(p) && r[|ps|].pairs == [p])
    && (k >= 0 ==> |r| == |ps| && Key(r[k]) == KeyOf(p) && r[k].pairs == ps[k].pairs + [p])
    && (forall i :: 0 <= i < |ps| && i != k ==> r[i] == ps[i])
  }

  lemma AddPairFiled(ps: seq<Product>, p: Pair)
    ensures Filed(ps, p, AddPair(ps, p))
  {
  }

  lemma FiledDistinct(ps: seq<Product>, p: Pair, r: seq<Product>)
    requires KeysDistinct(ps) && Filed(ps, p, r)
    ensures KeysDistinct(r)
  {
    var k := IndexOf(ps, KeyOf(p));
    forall i, j | 0 <= i < j < |r|
      ensures Key(r[i]) != Key(r[j])
    {
      if j == |ps| {
        assert Key(r[i]) == Key(ps[i]);
      } else if i == k {
        assert Key(r[i]) == Key(ps[i]) && r[j] == ps[j];
      } else if j == k {
        assert Key(r[j]) == Key(ps[j]) && r[i] == ps[i];
      } else {
        assert r[i] == ps[i] && r[j] == ps[j];
      }
    }
  }

  lemma FiledCovers(ps: seq<Product>, pairs: seq<Pair>, p: Pair, r: seq<Product>)
    requires Covers(ps, pairs) && Filed(ps, p, r)
    ensures Covers(r, pairs + [p])
  {
    var k := IndexOf(ps, KeyOf(p));
    forall q | q in pairs + [p]
      ensures IndexOf(r, KeyOf(q)) >= 0
    {
      if q in pairs {
        var i := IndexOf(ps, KeyOf(q));
        assert Key(r[i]) == KeyOf(q);
      } else if k < 0 {
        assert Key(r[|ps|]) == KeyOf(q);
      } else {
        assert Key(r[k]) == KeyOf(q);
      }
    }
  }

  lemma FiledPairsMatch(ps: seq<Product>, pairs: seq<Pair>, p: Pair, r: seq<Product>)
    requires KeysDistinct(ps) && PairsMatch(ps, pairs) && Covers(ps, pairs) && Filed(ps, p, r)
    ensures PairsMatch(r, pairs + [p])
  {
    var all := pairs + [p];
    var k := IndexOf(ps, KeyOf(p));
    if k < 0 {
      forall i | 0 <= i < |pairs|
        ensures KeyOf(pairs[i]) != KeyOf(p)
      {
        assert pairs[i] in pairs;
      }
      WithKeyNone(pairs, KeyOf(p));
    }
    forall i | 0 <= i < |r|
      ensures r[i].pairs == WithKey(all, Key(r[i]))
    {
      WithKeySnoc(pairs, p, Key(r[i]));
      if i < |ps| && i != k {
        assert r[i] == ps[i];
      }
    }
  }

  lemma AddPairKeepsInv(ps: seq<Product>, pairs: seq<Pair>, p: Pair)
    requires GroupInv(ps, pairs)
    ensures GroupInv(AddPair(ps, p), pairs + [p])
  {
    if IndexOf(ps, KeyOf(p)) < 0 {
      NewKeyValid(ps, p);
    } else {
      KnownKeyValid(ps, p);
    }
    AddPairFiled(ps, p);
    FiledDistinct(ps, p, AddPair(ps, p));
    FiledCovers(ps, pairs, p, AddPair(ps, p));
    FiledPairsMatch(ps, pairs, p, AddPair(ps, p));
  }

  lemma GroupStep(pairs: seq<Pair>, init: seq<Pair>, p: Pair)
    requires pairs == init + [p]
    requires GroupInv(Group(init), init)
    ensures GroupInv(Group(pairs), pairs)
  {
    assert pairs[..|pairs| - 1] == init;
    AddPairKeepsInv(Group(init), init, p);
  }

  /** `gruplu` after the loop: every line of the passing orders filed under its one product. */
  lemma {:induction false} GroupInvariant(pairs: seq<Pair>)
    ensures GroupInv(Group(pairs), pairs)
    decreases |pairs|
  {
    if pairs != [] {
      var init, p := pairs[..|pairs| - 1], pairs[|pairs| - 1];
      assert pairs == init + [p];
      GroupInvariant(init);
      GroupStep(pairs, init, p);
    }
  }

  // ------------------------------------------------------------------ sorting and search

  /** The sort key: the lower-cased name. */
  function NameKey(e: Product): string
  {
    Lower(e.name)
  }

  predicate SortedByName(ps: seq<Product>)
  {
    forall i, j :: 0 <= i < j < |ps| ==> !LexLess(NameKey(ps[j]), NameKey(ps[i]))
  }

  /** Puts `x` after every product whose key is not above its own. */
  function InsertByName(ps: seq<Product>, x: Product): seq<Product>
    decreases |ps|
  {
    if ps == [] then [x]
    else if LexLess(NameKey(x), NameKey(ps[0])) then [x] + ps
    else [ps[0]] + InsertByName(ps[1..], x)
  }

  /** `urunler.sort(key=lambda u: u.get("name", "").lower())`, an insertion sort. */
  function SortByName(ps: seq<Product>): seq<Product>
    decreases |ps|
  {
    if ps == [] then [] else InsertByName(SortByName(ps[..|ps| - 1]), ps[|ps| - 1])
  }

  /** The products whose key is `key`, in order. */
  function WithName(ps: seq<Product>, key: string): seq<Product>
    decreases |ps|
  {
    if ps == [] then []
    else (if NameKey(ps[0]) == key then [ps[0]] else []) + WithName(ps[1..], key)
  }

  lemma {:induction false} WithNameAppend(ps: seq<Product>, x: Product, key: string)
    ensures WithName(ps + [x], key) == WithName(ps, key) + (if NameKey(x) == key then [x] else [])
    decreases |ps|
  {
    if ps != [] {
      assert (ps + [x])[1..] == ps[1..] + [x];
      WithNameAppend(ps[1..], x, key);
    }
  }

  lemma {:induction false} WithNameNone(ps: seq<Product>, key: string)
    requires forall i :: 0 <= i < |ps| ==> NameKey(ps[i]) != key
    ensures WithName(ps, key) == []
    decreases |ps|
  {
    if ps != [] {
      WithNameNone(ps[1..], key);
    }
  }

  lemma {:induction false} InsertByNamePerm(ps: seq<Product>, x: Product)
    ensures multiset(InsertByName(ps, x)) == multiset(ps) + multiset{x}
    decreases |ps|
  {
    if ps != [] && !LexLess(NameKey(x), NameKey(ps[0])) {
      InsertByNamePerm(ps[1..], x);
      assert ps == [ps[0]] + ps[1..];
    }
  }

  /** In a sorted list every key is at least the first one. */
  lemma SortedFirst(ps: seq<Product>, i: int)
    requires SortedByName(ps) && 0 <= i < |ps|
    ensures !LexLess(NameKey(ps[i]), NameKey(ps[0]))
  {
    if i > 0 {
      assert !LexLess(NameKey(ps[i]), NameKey(ps[0]));
    } else {
      LexIrreflexive(NameKey(ps[0]));
    }
  }

  /** When `x` sorts before the head, it sorts before every element. */
  lemma BelowAll(ps: seq<Product>, x: Product, i: int)
    requires SortedByName(ps) && 0 <= i < |ps| && LexLess(NameKey(x), NameKey(ps[0]))
    ensures LexLess(NameKey(x), NameKey(ps[i]))
  {
    SortedFirst(ps, i);
    if NameKey(ps[i]) != NameKey(ps[0]) {
      LexTotal(NameKey(ps[0]), NameKey(ps[i]));
      LexTransitive(NameKey(x), NameKey(ps[0]), NameKey(ps[i]));
    }
  }

  /** `x` in front of a sorted list whose head sorts after it. */
  lemma SortedFront(ps: seq<Product>, x: Product)
    requires SortedByName(ps) && ps != [] && LexLess(NameKey(x), NameKey(ps[0]))
    ensures SortedByName([x] + ps)
  {
    var r := [x] + ps;
    forall i, j | 0 <= i < j < |r|
      ensures !LexLess(NameKey(r[j]), NameKey(r[i]))
    {
      if i == 0 {
        BelowAll(ps, x, j - 1);
        LexAsymmetric(NameKey(x), NameKey(ps[j - 1]));
      } else {
        assert r[i] == ps[i - 1] && r[j] == ps[j - 1];
      }
    }
  }

  /** The head of a sorted list in front of a sorted list holding the rest of it and `x`. */
  lemma SortedBehindHead(ps: seq<Product>, x: Product, t: seq<Product>)
    requires SortedByName(ps) && ps != [] && !LexLess(NameKey(x), NameKey(ps[0]))
    requires SortedByName(t) && multiset(t) == multiset(ps[1..]) + multiset{x}
    ensures SortedByName([ps[0]] + t)
  {
    var r := [ps[0]] + t;
    forall i, j | 0 <= i < j < |r|
      ensures !LexLess(NameKey(r[j]), NameKey(r[i]))
    {
      if i == 0 {
        assert r[j] == t[j - 1] && t[j - 1] in multiset(t);
        if r[j] != x {
          assert r[j] in multiset(ps[1..]);
          var k :| 0 <= k < |ps[1..]| && ps[1..][k] == r[j];
          assert ps[k + 1] == r[j];
        }
      } else {
        assert r[i] == t[i - 1] && r[j] == t[j - 1];
      }
    }
  }

  lemma {:induction false} InsertByNameSorted(ps: seq<Product>, x: Product)
    requires SortedByName(ps)
    ensures SortedByName(InsertByName(ps, x))
    decreases |ps|
  {
    if ps == [] {
    } else if LexLess(NameKey(x), NameKey(ps[0])) {
      SortedFront(ps, x);
    } else {
      InsertByNameSorted(ps[1..], x);
      InsertByNamePerm(ps[1..], x);
      SortedBehindHead(ps, x, InsertByName(ps[1..], x));
    }
  }

  /** The key of `x` is not among the keys of a sorted list whose head sorts after it. */
  lemma FrontKeyAbsent(ps: seq<Product>, x: Product)
    requires SortedByName(ps) && ps != [] && LexLess(NameKey(x), NameKey(ps[0]))
    ensures WithName(ps, NameKey(x)) == []
  {
    forall i | 0 <= i < |ps|
      ensures NameKey(ps[i]) != NameKey(x)
    {
      BelowAll(ps, x, i);
      LexIrreflexive(NameKey(x));
    }
    WithNameNone(ps, NameKey(x));
  }

  lemma WithNameCons(x: Product, ps: seq<Product>, key: string)
    ensures WithName([x] + ps, key) == (if NameKey(x) == key then [x] else []) + WithName(ps, key)
  {
    assert ([x] + ps)[1..] == ps;
  }

  lemma SortedTail(ps: seq<Product>)
    requires SortedByName(ps) && ps != []
    ensures SortedByName(ps[1..])
  {
    var t := ps[1..];
    forall i, j | 0 <= i < j < |t|
      ensures !LexLess(NameKey(t[j]), NameKey(t[i]))
    {
      assert t[i] == ps[i + 1] && t[j] == ps[j + 1];
    }
  }

  lemma {:induction false} InsertByNameStable(ps: seq<Product>, x: Product, key: string)
    requires SortedByName(ps)
    ensures WithName(InsertByName(ps, x), key) == WithName(ps, key) + (if NameKey(x) == key then [x] else [])
    decreases |ps|
  {
    if ps == [] {
      WithNameCons(x, [], key);
    } else if LexLess(NameKey(x), NameKey(ps[0])) {
      WithNameCons(x, ps, key);
      if NameKey(x) == key {
        FrontKeyAbsent(ps, x);
      }
    } else {
      SortedTail(ps);
      InsertByNameStable(ps[1..], x, key);
      StableBehindHead(ps, x, key);
    }
  }

  /** Inserting behind the head keeps the head in front of the tail's key group. */
  lemma StableBehindHead(ps: seq<Product>, x: Product, key: string)
    requires ps != [] && !LexLess(NameKey(x), NameKey(ps[0]))
    requires WithName(InsertByName(ps[1..], x), key) == WithName(ps[1..], key) + (if NameKey(x) == key then [x] else [])
    ensures WithName(InsertByName(ps, x), key) == WithName(ps, key) + (if NameKey(x) == key then [x] else [])
  {
    var t := InsertByName(ps[1..], x);
    var head := if NameKey(ps[0]) == key then [ps[0]] else [];
    var extra := if NameKey(x) == key then [x] else [];
    assert InsertByName(ps, x) == [ps[0]] + t;
    WithNameCons(ps[0], t, key);
    WithNameCons(ps[0], ps[1..], key);
    assert [ps[0]] + ps[1..] == ps;
    assert head + (WithName(ps[1..], key) + extra) == (head + WithName(ps[1..], key)) + extra;
  }

  /**
   * The sort is sorted, a permutation, and stable: the products sharing one
   * key keep their relative order.
   */
  lemma {:induction false} SortByNameSpec(ps: seq<Product>)
    ensures SortedByName(SortByName(ps))
    ensures multiset(SortByName(ps)) == multiset(ps)
    ensures forall key :: WithName(SortByName(ps), key) == WithName(ps, key)
    decreases |ps|
  {
    if ps != [] {
      var init, x := ps[..|ps| - 1], ps[|ps| - 1];
      assert ps == init + [x];
      SortByNameSpec(init);
      InsertByNameSorted(SortByName(init), x);
      InsertByNamePerm(SortByName(init), x);
      forall key
        ensures WithName(SortByName(ps), key) == WithName(ps, key)
      {
        InsertByNameStable(SortByName(init), x, key);
        WithNameAppend(init, x, key);
      }
    }
  }

  /** The search: the lower-cased term occurs in the lower-cased name, barcode or stock code. */
  predicate MatchesTerm(e: Product, at: string)
  {
    Contains(Lower(e.name), at) || Contains(Lower(e.barcode), at) || Contains(Lower(e.stockCode), at)
  }

  function FilterTerm(ps: seq<Product>, at: string): (r: seq<Product>)
    ensures forall e :: e in r <==> e in ps && MatchesTerm(e, at)
    ensures IsSubseq(r, ps)
    decreases |ps|
  {
    if ps == [] then []
    else
      var init := ps[..|ps| - 1];
      var e := ps[|ps| - 1];
      assert ps == init + [e];
      var r := FilterTerm(init, at);
      if MatchesTerm(e, at) then
        SubseqKeep(r, init, e);
        r + [e]
      else
        SubseqSkip(r, init, e);
        r
  }

  /** An empty term keeps every product; otherwise only the matching ones, in order. */
  function Search(ps: seq<Product>, term: string): (r: seq<Product>)
    ensures forall e :: e in r <==> e in ps && (term == "" || MatchesTerm(e, Lower(term)))
    ensures IsSubseq(r, ps)
  {
    SubseqRefl(ps);
    if term == "" then ps else FilterTerm(ps, Lower(term))
  }

  /** Leaving products out keeps a sorted list sorted. */
  lemma {:induction false} SortedSubseq(a: seq<Product>, b: seq<Product>)
    requires IsSubseq(a, b) && SortedByName(b)
    ensures SortedByName(a)
    decreases |b|
  {
    if |a| > 0 && |b| > 0 {
      var b' := b[..|b| - 1];
      if a[|a| - 1] == b[|b| - 1] {
        var a' := a[..|a| - 1];
        SortedSubseq(a', b');
        SubseqMembers(a', b');
        forall i, j | 0 <= i < j < |a|
          ensures !LexLess(NameKey(a[j]), NameKey(a[i]))
        {
          if j == |a| - 1 {
            assert a[i] == a'[i] && a'[i] in b';
            var k :| 0 <= k < |b'| && b'[k] == a[i];
            assert b[k] == a[i];
          } else {
            assert a[i] == a'[i] && a[j] == a'[j];
          }
        }
      } else {
        SortedSubseq(a, b');
      }
    }
  }

  /** The platform test of the order loop: skip an order of another platform. */
  method PlatformTest(order: Order, platformFilter: string) returns (admitted: bool)
    ensures admitted == PlatformAdmits(order, platformFilter)
  {
    var wanted := Upper(Strip(platformFilter));
    if platformFilter != "" && wanted != "TÜMÜ" {
      var platform := PlatformOf(order);
      if platform != wanted {
        return false;
      }
    }
    return true;
  }

  /** The date test of the order loop: skip an order outside the bounds, keep one whose date does not parse. */
  method DateTest(order: Order, dateStart: Option<int>, dateEnd: Option<int>) returns (inRange: bool)
    ensures inRange == InDateRange(order, dateStart, dateEnd)
  {
    if order.datetime.Some? {
      if dateStart.Some? && order.datetime.value < dateStart.value {
        return false;
      }
      if dateEnd.Some? && order.datetime.value > dateEnd.value {
        return false;
      }
    }
    return true;
  }

  /** The three `continue` tests at the head of the order loop of `get_depo_urunler`. */
  method OrderPasses(order: Order, platformFilter: string, dateStart: Option<int>, dateEnd: Option<int>)
    returns (passes: bool)
    ensures passes == Passes(order, platformFilter, dateStart, dateEnd)
  {
    if !StatusOpen(order) {
      return false;
    }
    var admitted := PlatformTest(order, platformFilter);
    if !admitted {
      return false;
    }
    passes := DateTest(order, dateStart, dateEnd);
  }

  lemma GroupSnoc(all: seq<Pair>, pairs: seq<Pair>, p: Pair)
    requires all == pairs + [p]
    ensures Group(all) == AddPair(Group(pairs), p)
  {
    assert all[..|pairs|] == pairs;
  }

  lemma PrefixSnoc(before: seq<Pair>, lines: seq<Pair>, j: int)
    requires 0 <= j < |lines|
    ensures before + lines[..j + 1] == (before + lines[..j]) + [lines[j]]
  {
    assert lines[..j + 1] == lines[..j] + [lines[j]];
  }

  /** One step of the inner loop. */
  lemma FileOne(before: seq<Pair>, lines: seq<Pair>, j: int)
    requires 0 <= j < |lines|
    ensures AddPair(Group(before + lines[..j]), lines[j]) == Group(before + lines[..j + 1])
  {
    PrefixSnoc(before, lines, j);
    GroupSnoc(before + lines[..j + 1], before + lines[..j], lines[j]);
  }

  /** The inner loop: each line of the order is filed in turn. */
  method FileLines(gruplu: seq<Product>, ghost before: seq<Pair>, order: Order, now: int)
    returns (r: seq<Product>)
    requires gruplu == Group(before)
    ensures r == Group(before + Lines(order, now))
  {
    r := gruplu;
    ghost var lines := Lines(order, now);
    assert before + lines[..0] == before;
    for j := 0 to |order.products|
      invariant r == Group(before + lines[..j])
    {
      FileOne(before, lines, j);
      LineAt(order, now, j);
      r := AddPair(r, LineOf(order, order.products[j], now));
    }
    assert lines[..|order.products|] == lines;
  }

  lemma ContributionsSnoc(orders: seq<Order>, i: int, platformFilter: string, dateStart: Option<int>, dateEnd: Option<int>, now: int)
    requires 0 <= i < |orders|
    ensures Passes(orders[i], platformFilter, dateStart, dateEnd) ==>
      Contributions(orders[..i + 1], platformFilter, dateStart, dateEnd, now) ==
      Contributions(orders[..i], platformFilter, dateStart, dateEnd, now) + Lines(orders[i], now)
    ensures !Passes(orders[i], platformFilter, dateStart, dateEnd) ==>
      Contributions(orders[..i + 1], platformFilter, dateStart, dateEnd, now) ==
      Contributions(orders[..i], platformFilter, dateStart, dateEnd, now)
  {
    assert orders[..i + 1][..i] == orders[..i];
    var c := Contributions(orders[..i], platformFilter, dateStart, dateEnd, now);
    assert c + [] == c;
  }

  /**
   * `get_depo_urunler`: the loop over the orders (skipping closed ones, other
   * platforms and orders outside the dates) and over their lines, then the
   * sort by name and the search.
   */
  method GetDepoUrunler(siparisler: seq<Order>, platformFilter: string, dateStart: Option<int>,
                        dateEnd: Option<int>, aramaTerimi: string, now: int) returns (urunler: seq<Product>)
    ensures urunler == Search(SortByName(Group(Contributions(siparisler, platformFilter, dateStart, dateEnd, now))), aramaTerimi)
  {
    var gruplu: seq<Product> := [];
    for i := 0 to |siparisler|
      invariant gruplu == Group(Contributions(siparisler[..i], platformFilter, dateStart, dateEnd, now))
    {
      ContributionsSnoc(siparisler, i, platformFilter, dateStart, dateEnd, now);
      ghost var before := Contributions(siparisler[..i], platformFilter, dateStart, dateEnd, now);
      var passes := OrderPasses(siparisler[i], platformFilter, dateStart, dateEnd);
      if !passes {
        continue;
      }
      gruplu := FileLines(gruplu, before, siparisler[i], now);
    }
    assert siparisler[..|siparisler|] == siparisler;
    urunler := SortByName(gruplu);
    urunler := Search(urunler, aramaTerimi);
  }

  /** The rows shown are sorted by name. */
  lemma DepoUrunlerSorted(pairs: seq<Pair>, aramaTerimi: string)
    ensures SortedByName(Search(SortByName(Group(pairs)), aramaTerimi))
  {
    SortByNameSpec(Group(pairs));
    SortedSubseq(Search(SortByName(Group(pairs)), aramaTerimi), SortByName(Group(pairs)));
  }

  /** Every row shown is a product of the grouping. */
  lemma DepoUrunlerFromGroup(pairs: seq<Pair>, aramaTerimi: string)
    ensures forall e :: e in Search(SortByName(Group(pairs)), aramaTerimi) ==> e in Group(pairs)
  {
    var grouped := Group(pairs);
    SortByNameSpec(grouped);
    forall e | e in Search(SortByName(grouped), aramaTerimi)
      ensures e in grouped
    {
      assert e in multiset(SortByName(grouped));
    }
  }

  /** The rows shown for any list of lines: each agrees with the lines under its key. */
  lemma DepoUrunlerRows(pairs: seq<Pair>, aramaTerimi: string)
    ensures var urunler := Search(SortByName(Group(pairs)), aramaTerimi);
      && (forall e :: e in urunler ==> ProductValid(e) && e.pairs == WithKey(pairs, Key(e)))
      && (forall e, q :: e in urunler && q in e.pairs ==> q in pairs)
  {
    var grouped := Group(pairs);
    var urunler := Search(SortByName(grouped), aramaTerimi);
    GroupInvariant(pairs);
    DepoUrunlerFromGroup(pairs, aramaTerimi);
    forall e | e in urunler
      ensures ProductValid(e) && e.pairs == WithKey(pairs, Key(e))
    {
      var i :| 0 <= i < |grouped| && grouped[i] == e;
    }
    forall e, q | e in urunler && q in e.pairs
      ensures q in pairs
    {
      WithKeyMembers(pairs, Key(e));
    }
  }

  /** With no search term every line is shown under some row. */
  lemma DepoUrunlerCovers(pairs: seq<Pair>)
    ensures forall q :: q in pairs ==> exists e :: e in Search(SortByName(Group(pairs)), "") && q in e.pairs
  {
    var grouped := Group(pairs);
    var urunler := Search(SortByName(grouped), "");
    GroupInvariant(pairs);
    SortByNameSpec(grouped);
    forall q | q in pairs
      ensures exists e :: e in urunler && q in e.pairs
    {
      var i := IndexOf(grouped, KeyOf(q));
      WithKeyMembers(pairs, KeyOf(q));
      assert grouped[i] in multiset(urunler);
      assert grouped[i] in urunler && q in grouped[i].pairs;
    }
  }

  /**
   * What the view shows: each row agrees with its lines, its lines are all
   * lines with its key, and each comes from an input order that passes the
   * filters; with no search term, every such line is shown under its row.
   */
  lemma DepoUrunlerSpec(siparisler: seq<Order>, platformFilter: string, dateStart: Option<int>,
                        dateEnd: Option<int>, aramaTerimi: string, now: int)
    ensures var pairs := Contributions(siparisler, platformFilter, dateStart, dateEnd, now);
      var urunler := Search(SortByName(Group(pairs)), aramaTerimi);
      && (forall e :: e in urunler ==> ProductValid(e) && e.pairs == WithKey(pairs, Key(e)))
      && (forall e, q :: e in urunler && q in e.pairs ==>
            q.order in siparisler && Passes(q.order, platformFilter, dateStart, dateEnd) && q.item in q.order.products
            && q == LineOf(q.order, q.item, now))
      && (aramaTerimi == "" ==> forall q :: q in pairs ==> exists e :: e in urunler && q in e.pairs)
  {
    var pairs := Contributions(siparisler, platformFilter, dateStart, dateEnd, now);
    DepoUrunlerRows(pairs, aramaTerimi);
    ContributionsFromPassingOrders(siparisler, platformFilter, dateStart, dateEnd, now);
    if aramaTerimi == "" {
      DepoUrunlerCovers(pairs);
    }
  }
}
