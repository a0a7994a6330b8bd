/**
 * utils.py: the relative-age label and hour of an order timestamp, the sorted
 * list of distinct non-blank strings, and the two file updates made when an
 * invoice is printed (drop the order from the store, record it as done).
 */
module Utils {
  import opened Wrappers
  import opened Text
  import opened Seqs
  import opened Records
  import opened Storage
  import opened Api

  // ------------------------------------------------------------------ dates

  /**
   * `calc_days_ago`: "" when the timestamp does not parse, otherwise a minus
   * sign, the whole days elapsed until `now` and the word "gün".
   */
  function CalcDaysAgo(datetime: Option<int>, now: int): (age: string)
    ensures age == "" <==> datetime.None?
    ensures datetime.Some? ==>
      var digits := IntToString(WholeDays(now - datetime.value));
      |age| == |digits| + 5 && age[..1] == "-" && age[1..|age| - 4] == digits && age[|age| - 4..] == " gün"
  {
    match datetime
    case None => ""
    case Some(t) => "-" + IntToString(WholeDays(now - t)) + " gün"
  }

  /** `get_hour`: the hour of the timestamp, 0 when it does not parse. */
  function GetHour(datetime: Option<int>): (h: int)
    ensures 0 <= h < 24
    ensures datetime.None? ==> h == 0
    ensures datetime.Some? ==>
      h * SecondsPerHour <= datetime.value % SecondsPerDay < (h + 1) * SecondsPerHour
  {
    match datetime
    case None => 0
    case Some(t) => HourOfDay(t)
  }

  // ------------------------------------------------------------------ unique_list

  predicate StrictlySorted(s: seq<string>)
  {
    forall i, j :: 0 <= i < j < |s| ==> LexLess(s[i], s[j])
  }

  /** A string that `x and x.strip()` admits. */
  predicate NotBlank(x: string)
  {
    x != "" && Strip(x) != ""
  }

  function Insert(s: seq<string>, x: string): seq<string>
    decreases |s|
  {
    if s == [] then [x]
    else if x == s[0] then s
    else if LexLess(x, s[0]) then [x] + s
    else [s[0]] + Insert(s[1..], x)
  }

  lemma {:induction false} InsertSorted(s: seq<string>, x: string)
    requires StrictlySorted(s)
    ensures StrictlySorted(Insert(s, x))
    ensures forall y :: y in Insert(s, x) <==> y in s || y == x
    decreases |s|
  {
    if s == [] || x == s[0] {
    } else if LexLess(x, s[0]) {
      var r := [x] + s;
      forall i, j | 0 <= i < j < |r|
        ensures LexLess(r[i], r[j])
      {
        if i == 0 && j > 1 {
          LexTransitive(x, s[0], s[j - 1]);
        }
      }
    } else {
      InsertSorted(s[1..], x);
      LexTotal(x, s[0]);
      var t := Insert(s[1..], x);
      var r := [s[0]] + t;
      forall j | 0 <= j < |t|
        ensures LexLess(s[0], t[j])
      {
        assert t[j] in s[1..] || t[j] == x;
        if t[j] in s[1..] {
          var k :| 0 <= k < |s[1..]| && s[1..][k] == t[j];
          assert s[k + 1] == t[j];
        }
      }
      forall i, j | 0 <= i < j < |r|
        ensures LexLess(r[i], r[j])
      {
        if i > 0 {
          assert r[i] == t[i - 1] && r[j] == t[j - 1];
        }
      }
    }
  }

  /** `unique_list`: the distinct non-blank strings of `lst`, sorted. */
  function UniqueList(lst: seq<string>): seq<string>
    decreases |lst|
  {
    if lst == [] then []
    else
      var x := lst[|lst| - 1];
      var r := UniqueList(lst[..|lst| - 1]);
      if NotBlank(x) then Insert(r, x) else r
  }

  lemma {:induction false} UniqueListSpec(lst: seq<string>)
    ensures StrictlySorted(UniqueList(lst))
    ensures forall x :: x in UniqueList(lst) <==> x in lst && NotBlank(x)
    decreases |lst|
  {
    if lst != [] {
      var init := lst[..|lst| - 1];
      assert lst == init + [lst[|lst| - 1]];
      UniqueListSpec(init);
      InsertSorted(UniqueList(init), lst[|lst| - 1]);
    }
  }

  /**
   * A strictly sorted list is determined by its members, so `UniqueList` is
   * the one sorted list of the set `{x for x in lst if x and x.strip()}`.
   */
  lemma {:induction false} SortedByMembers(a: seq<string>, b: seq<string>)
    requires StrictlySorted(a) && StrictlySorted(b)
    requires forall x :: x in a <==> x in b
    ensures a == b
    decreases |a|
  {
    assert a != [] ==> a[0] in b;
    assert b != [] ==> b[0] in a;
    if a != [] {
      var i :| 0 <= i < |a| && a[i] == b[0];
      var j :| 0 <= j < |b| && b[j] == a[0];
      if a[0] != b[0] {
        assert i > 0 && j > 0;
        LexAsymmetric(a[0], a[i]);
      }
      forall x | x in a[1..]
        ensures x in b[1..]
      {
        var k :| 1 <= k < |a| && a[k] == x;
        LexIrreflexive(a[0]);
        assert x in b && x != b[0];
        assert b == [b[0]] + b[1..];
      }
      forall x | x in b[1..]
        ensures x in a[1..]
      {
        var k :| 1 <= k < |b| && b[k] == x;
        LexIrreflexive(b[0]);
        assert x in a && x != a[0];
        assert a == [a[0]] + a[1..];
      }
      SortedByMembers(a[1..], b[1..]);
      assert a == [a[0]] + a[1..] && b == [b[0]] + b[1..];
    }
  }

  lemma UniqueListCanonical(lst: seq<string>, s: seq<string>)
    requires StrictlySorted(s)
    requires forall x :: x in s <==> x in lst && NotBlank(x)
    ensures UniqueList(lst) == s
  {
    UniqueListSpec(lst);
    SortedByMembers(UniqueList(lst), s);
  }

  // ------------------------------------------------------------------ delete_order

  /** `str(no) == key or str(order_number) == key`. */
  predicate MatchesNo(o: Order, key: string)
  {
    o.no.PyStr() == key || o.orderNumber.PyStr() == key
  }

  function Remove(orders: seq<Order>, key: string): (kept: seq<Order>)
    ensures forall o :: o in kept <==> o in orders && !MatchesNo(o, key)
    ensures IsSubseq(kept, orders)
    decreases |orders|
  {
    if orders == [] then []
    else
      var init := orders[..|orders| - 1];
      var o := orders[|orders| - 1];
      assert orders == init + [o];
      var kept := Remove(init, key);
      if MatchesNo(o, key) then
        SubseqSkip(kept, init, o);
        kept
      else
        SubseqKeep(kept, init, o);
        kept + [o]
  }

  lemma RemoveIdempotent(orders: seq<Order>, key: string)
    ensures Remove(Remove(orders, key), key) == Remove(orders, key)
  {
    RemoveNothing(Remove(orders, key), key);
  }

  lemma {:induction false} RemoveNothing(orders: seq<Order>, key: string)
    requires forall o :: o in orders ==> !MatchesNo(o, key)
    ensures Remove(orders, key) == orders
    decreases |orders|
  {
    if orders != [] {
      var init := orders[..|orders| - 1];
      var o := orders[|orders| - 1];
      assert orders == init + [o];
      assert !MatchesNo(o, key);
      RemoveNothing(init, key);
    }
  }

  predicate AnyMatch(orders: seq<Order>, key: string)
  {
    exists o :: o in orders && MatchesNo(o, key)
  }

  lemma AnyMatchSnoc(orders: seq<Order>, o: Order, key: string)
    ensures AnyMatch(orders + [o], key) <==> AnyMatch(orders, key) || MatchesNo(o, key)
  {
    if AnyMatch(orders + [o], key) && !MatchesNo(o, key) {
      var p :| p in orders + [o] && MatchesNo(p, key);
      assert p in orders;
    }
    if MatchesNo(o, key) {
      assert o in orders + [o];
    }
    if AnyMatch(orders, key) {
      var p :| p in orders && MatchesNo(p, key);
      assert p in orders + [o];
    }
  }

  /** The loop of `delete_order`: the orders that stay, and whether any matched. */
  method Remaining(orders: seq<Order>, key: string) returns (kalanlar: seq<Order>, found: bool)
    ensures kalanlar == Remove(orders, key)
    ensures found <==> AnyMatch(orders, key)
  {
    kalanlar, found := [], false;
    for i := 0 to |orders|
      invariant kalanlar == Remove(orders[..i], key)
      invariant found <==> AnyMatch(orders[..i], key)
    {
      var o := orders[i];
      assert orders[..i + 1] == orders[..i] + [o];
      AnyMatchSnoc(orders[..i], o, key);
      if MatchesNo(o, key) {
        found := true;
      } else {
        kalanlar := kalanlar + [o];
      }
    }
    assert orders[..|orders|] == orders;
  }

  /**
   * `delete_order`: reading the store without a fallback, it fails (`raised`)
   * when the file cannot be read; otherwise every order matching `orderNo` is
   * dropped, and the file is rewritten only when one matched.
   */
  method DeleteOrder(disk: Disk, orderNo: Field) returns (raised: bool)
    modifies disk
    ensures raised <==> old(disk.output).None?
    ensures raised ==> disk.output == old(disk.output)
    ensures !raised && AnyMatch(old(disk.Orders()), orderNo.PyStr()) ==>
      disk.output == Some(Remove(old(disk.Orders()), orderNo.PyStr()))
    ensures !raised && !AnyMatch(old(disk.Orders()), orderNo.PyStr()) ==>
      disk.output == old(disk.output)
    ensures disk.done == old(disk.done) && disk.archive == old(disk.archive)
    ensures disk.locations == old(disk.locations)
  {
    if disk.output.None? {
      return true;
    }
    var kalanlar, found := Remaining(disk.output.value, orderNo.PyStr());
    if found {
      disk.SaveOrders(kalanlar);
    }
    return false;
  }

  // ------------------------------------------------------------------ add_to_done_orders

  /** The id list after appending `x` unless it is already there. */
  function AddDone(ids: seq<string>, x: string): (r: seq<string>)
    ensures ids <= r && x in r
    ensures forall y :: y in r <==> y in ids || y == x
    ensures |r| == if x in ids then |ids| else |ids| + 1
  {
    if x in ids then ids else ids + [x]
  }

  lemma AddDoneIdempotent(ids: seq<string>, x: string)
    ensures AddDone(AddDone(ids, x), x) == AddDone(ids, x)
  {
  }

  /**
   * `add_to_done_orders`: a missing file starts an empty list; an unreadable
   * one raises and is left alone; otherwise `str(order_no)` is recorded once
   * and the file is written back.
   */
  method AddToDoneOrders(disk: Disk, orderNo: Field) returns (raised: bool)
    modifies disk
    ensures raised <==> old(disk.done).Unreadable?
    ensures raised ==> disk.done == old(disk.done)
    ensures old(disk.done).Missing? ==> disk.done == Ids([orderNo.PyStr()])
    ensures old(disk.done).Ids? ==> disk.done == Ids(AddDone(old(disk.done).ids, orderNo.PyStr()))
    ensures disk.output == old(disk.output) && disk.archive == old(disk.archive)
    ensures disk.locations == old(disk.locations)
  {
    if disk.done.Unreadable? {
      return true;
    }
    var ids := if disk.done.Ids? then disk.done.ids else [];
    disk.done := Ids(AddDone(ids, orderNo.PyStr()));
    return false;
  }

  /**
   * Once an order number is recorded as done, no later merge brings an order
   * with that `no` back into the store, whatever the remote source returns.
   */
  lemma DoneNeverMergedBack(ids: seq<string>, x: string, stored: seq<Order>, fetched: seq<Order>, o: Order)
    requires o.no.PyStr() == x || o.orderNumber.PyStr() == x
    ensures o !in Merge(stored, fetched, DoneSet(Ids(AddDone(ids, x))))
  {
    assert IsDone(o, DoneSet(Ids(AddDone(ids, x))));
  }
}
