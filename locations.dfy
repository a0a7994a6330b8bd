/**
 * The location registry: locations.csv maps a product name to the shelf it
 * sits on. Reading keeps every row of at least two fields, later rows
 * overwriting earlier ones; writing emits one [name, location] row per entry,
 * sorted by name.
 */
module Locations {
  import opened Text
  import opened Utils
  import opened Storage

  /** Rows applied in order on top of `base`: a row of two or more fields sets its name's location. */
  function Apply(base: map<string, string>, rows: seq<seq<string>>): map<string, string>
    decreases |rows|
  {
    if rows == [] then base
    else
      var m := Apply(base, rows[..|rows| - 1]);
      var r := rows[|rows| - 1];
      if |r| >= 2 then m[r[0] := r[1]] else m
  }

  /** The registry a file holds (a missing file has no rows, so reads as empty). */
  function Registry(rows: seq<seq<string>>): map<string, string>
  {
    Apply(map[], rows)
  }

  /** Some row of at least two fields names `k`. */
  predicate Names(rows: seq<seq<string>>, k: string)
  {
    exists i :: 0 <= i < |rows| && |rows[i]| >= 2 && rows[i][0] == k
  }

  /** The names present afterwards: the old ones and those some row names. */
  lemma {:induction false} ApplyKeys(base: map<string, string>, rows: seq<seq<string>>)
    ensures forall k :: k in Apply(base, rows) <==> k in base || Names(rows, k)
    decreases |rows|
  {
    if rows != [] {
      var init := rows[..|rows| - 1];
      var r := rows[|rows| - 1];
      ApplyKeys(base, init);
      forall k
        ensures Names(rows, k) <==> Names(init, k) || (|r| >= 2 && r[0] == k)
      {
        if Names(rows, k) {
          var i :| 0 <= i < |rows| && |rows[i]| >= 2 && rows[i][0] == k;
          if i < |init| {
            assert init[i] == rows[i];
          }
        }
        if Names(init, k) {
          var i :| 0 <= i < |init| && |init[i]| >= 2 && init[i][0] == k;
          assert rows[i] == init[i];
        }
      }
    }
  }

  /** Last write wins: the value of the last row naming `rows[i][0]`. */
  lemma {:induction false} ApplyLastWins(base: map<string, string>, rows: seq<seq<string>>, i: int)
    requires 0 <= i < |rows| && |rows[i]| >= 2
    requires forall j :: i < j < |rows| && |rows[j]| >= 2 ==> rows[j][0] != rows[i][0]
    ensures rows[i][0] in Apply(base, rows) && Apply(base, rows)[rows[i][0]] == rows[i][1]
    decreases |rows|
  {
    var init := rows[..|rows| - 1];
    if i < |init| {
      assert init[i] == rows[i];
      forall j | i < j < |init| && |init[j]| >= 2
        ensures init[j][0] != init[i][0]
      {
        assert init[j] == rows[j];
      }
      ApplyLastWins(base, init, i);
    }
  }

  /** A name no row mentions keeps its old location. */
  lemma {:induction false} ApplyUntouched(base: map<string, string>, rows: seq<seq<string>>, k: string)
    requires k in base && !Names(rows, k)
    ensures k in Apply(base, rows) && Apply(base, rows)[k] == base[k]
    decreases |rows|
  {
    if rows != [] {
      var init := rows[..|rows| - 1];
      forall i | 0 <= i < |init|
        ensures |init[i]| >= 2 ==> init[i][0] != k
      {
        assert init[i] == rows[i];
      }
      assert |rows[|rows| - 1]| >= 2 ==> rows[|rows| - 1][0] != k;
      ApplyUntouched(base, init, k);
    }
  }

  /** The loop of `_read_locations` in the first server. */
  method ReadLocations(rows: seq<seq<string>>) returns (out: map<string, string>)
    ensures out == Registry(rows)
  {
    out := map[];
    for i := 0 to |rows|
      invariant out == Registry(rows[..i])
    {
      assert rows[..i + 1][..i] == rows[..i];
      if |rows[i]| >= 2 {
        out := out[rows[i][0] := rows[i][1]];
      }
    }
    assert rows[..|rows|] == rows;
  }

  /** `rows` is what `_write_locations(m)` writes: one [name, location] row per entry, sorted by name. */
  predicate WrittenFrom(m: map<string, string>, rows: seq<seq<string>>)
  {
    && (forall i :: 0 <= i < |rows| ==> |rows[i]| == 2 && rows[i][0] in m && rows[i][1] == m[rows[i][0]])
    && (forall k :: k in m ==> exists i :: 0 <= i < |rows| && rows[i][0] == k)
    && (forall i, j :: 0 <= i < j < |rows| ==> LexLess(rows[i][0], rows[j][0]))
  }

  /** Reading back what was written gives the registry that was written. */
  lemma ReadWritten(m: map<string, string>, rows: seq<seq<string>>)
    requires WrittenFrom(m, rows)
    ensures Registry(rows) == m
  {
    ApplyKeys(map[], rows);
    forall k | k in m
      ensures k in Registry(rows) && Registry(rows)[k] == m[k]
    {
      var i :| 0 <= i < |rows| && rows[i][0] == k;
      forall j | i < j < |rows| && |rows[j]| >= 2
        ensures rows[j][0] != rows[i][0]
      {
        LexIrreflexive(rows[i][0]);
      }
      ApplyLastWins(map[], rows, i);
    }
    forall k | k in Registry(rows)
      ensures k in m
    {
      var i :| 0 <= i < |rows| && |rows[i]| >= 2 && rows[i][0] == k;
    }
  }

  /** The names of `m` in ascending order, as `sorted(d.items())` visits them. */
  method SortedNames(m: map<string, string>) returns (ks: seq<string>)
    ensures StrictlySorted(ks)
    ensures forall k :: k in ks <==> k in m
  {
    ks := [];
    var rest := m.Keys;
    while rest != {}
      invariant rest <= m.Keys
      invariant StrictlySorted(ks)
      invariant forall k :: k in ks <==> k in m && k !in rest
      decreases |rest|
    {
      var k :| k in rest;
      InsertSorted(ks, k);
      ks := Insert(ks, k);
      rest := rest - {k};
    }
  }

  /** The rows `_write_locations(m)` emits. */
  method SortedRows(m: map<string, string>) returns (rows: seq<seq<string>>)
    ensures WrittenFrom(m, rows)
  {
    var ks := SortedNames(m);
    rows := [];
    for i := 0 to |ks|
      invariant |rows| == i
      invariant forall j :: 0 <= j < i ==> |rows[j]| == 2 && rows[j][0] == ks[j]
      invariant forall j :: 0 <= j < i ==> rows[j][0] in m && rows[j][1] == m[rows[j][0]]
    {
      rows := rows + [[ks[i], m[ks[i]]]];
    }
    forall k | k in m
      ensures exists i :: 0 <= i < |rows| && rows[i][0] == k
    {
      var i :| 0 <= i < |ks| && ks[i] == k;
      assert rows[i][0] == k;
    }
  }

  /** `_write_locations`: the file is replaced by the sorted rows of `m`; nothing else changes. */
  method WriteLocations(disk: Disk, m: map<string, string>)
    modifies disk
    ensures WrittenFrom(m, disk.locations)
    ensures Registry(disk.locations) == m
    ensures disk.output == old(disk.output) && disk.done == old(disk.done) && disk.archive == old(disk.archive)
  {
    var rows := SortedRows(m);
    disk.locations := rows;
    ReadWritten(m, rows);
  }
}
