/** The seven-day views of the dashboard: the days from today on, and the
    rows grouped by their due-date key (`byDate`, a `Map` from day key to
    the rows due that day). The calendar card and the weekly schedule build
    both the same way over their own row types, so the grouping is generic
    in the row type and in how the key is read from a row. */
module Week {
  import opened Common
  import opened Text
  import opened Dates

  /** `Array.from({ length: 7 }).map((_, i) => addDays(today, i))`. */
  function WeekDays(today: Date): (r: seq<Date>)
    requires Valid(today)
    ensures |r| == 7 && r[0] == today
    ensures forall i :: 0 <= i < 7 ==> Valid(r[i]) && r[i] == AddDays(today, i)
  {
    seq(7, i requires 0 <= i < 7 => AddDays(today, i))
  }

  /** The seven days are consecutive calendar days, their day keys are
      pairwise distinct, and each key reads back as its day. */
  lemma WeekDaysConsecutive(today: Date)
    requires Valid(today)
    ensures var r := WeekDays(today);
      && (forall i :: 0 <= i < 6 ==> r[i + 1] == NextDay(r[i]))
      && (forall i, j :: 0 <= i < j < 7 ==> Format(r[i]) != Format(r[j]))
      && (forall i :: 0 <= i < 7 ==> ParseKey(Format(r[i])) == Some(r[i]))
  {
    var r := WeekDays(today);
    forall i, j | 0 <= i < j < 7
      ensures Format(r[i]) != Format(r[j])
    {
      AddDaysIncreasing(today, i, j);
      if Format(r[i]) == Format(r[j]) {
        FormatInjective(r[i], r[j]);
      }
    }
    forall i | 0 <= i < 7
      ensures ParseKey(Format(r[i])) == Some(r[i])
    {
      ParseFormat(r[i]);
    }
  }

  // ---------------------------------------------------------------------
  // byDate

  /** `row.due_date ?? ""` is the key `k`, and `k` is not empty. */
  function DueOn<R>(keyOf: R -> Option<string>, k: string): R -> bool {
    (r: R) => k != "" && keyOf(r) == Some(k)
  }

  /** The row has a non-empty due date. */
  function Dated<R>(keyOf: R -> Option<string>): R -> bool {
    (r: R) => Truthy(keyOf(r))
  }

  /** The rows due on `k`, in input order. */
  function Bucket<R>(rows: seq<R>, keyOf: R -> Option<string>, k: string): seq<R> {
    Filter(rows, DueOn(keyOf, k))
  }

  /** `map.get(k) ?? []`. */
  function Lookup<R>(m: map<string, seq<R>>, k: string): seq<R> {
    if k in m then m[k] else []
  }

  predicate Distinct(keys: seq<string>) {
    forall i, j :: 0 <= i < j < |keys| ==> keys[i] != keys[j]
  }

  /** The total size of the buckets named by `keys`. */
  function SumSizes<R>(m: map<string, seq<R>>, keys: seq<string>): nat {
    if |keys| == 0 then 0 else SumSizes(m, keys[..|keys| - 1]) + |Lookup(m, keys[|keys| - 1])|
  }

  /** Changing a bucket whose key is not named leaves the total alone. */
  lemma {:induction false} SumSizesFrame<R>(m: map<string, seq<R>>, keys: seq<string>, k: string, v: seq<R>)
    requires k !in keys
    ensures SumSizes(m[k := v], keys) == SumSizes(m, keys)
  {
    if |keys| > 0 {
      SumSizesFrame(m, keys[..|keys| - 1], k, v);
    }
  }

  /** Changing a named bucket changes the total by the change in its size. */
  lemma {:induction false} SumSizesUpdate<R>(m: map<string, seq<R>>, keys: seq<string>, k: string, v: seq<R>)
    requires Distinct(keys) && k in keys
    ensures SumSizes(m[k := v], keys) + |Lookup(m, k)| == SumSizes(m, keys) + |v|
  {
    var init, last := keys[..|keys| - 1], keys[|keys| - 1];
    if last == k {
      assert k !in init by {
        forall i | 0 <= i < |init|
          ensures init[i] != k
        {
          assert keys[i] == init[i];
        }
      }
      SumSizesFrame(m, init, k, v);
    } else {
      assert k in init by {
        var i :| 0 <= i < |keys| && keys[i] == k;
        assert i < |keys| - 1 && init[i] == k;
      }
      SumSizesUpdate(m, init, k, v);
    }
  }

  /** The map and its key order group `rows`: the buckets are the rows due
      on each key in input order, the empty key has none, the keys are
      listed once each, and the bucket sizes add up to the number of dated
      rows. */
  ghost predicate Grouped<R>(m: map<string, seq<R>>, keys: seq<string>, rows: seq<R>, keyOf: R -> Option<string>) {
    && (forall k :: Lookup(m, k) == Bucket(rows, keyOf, k))
    && "" !in m
    && Distinct(keys) && (forall k :: k in m <==> k in keys)
    && SumSizes(m, keys) == |Filter(rows, Dated(keyOf))|
  }

  /** How the buckets grow by one row: every bucket is the previous one with
      the row added exactly when it is due on that bucket's key. */
  lemma BucketSnoc<R>(rows: seq<R>, keyOf: R -> Option<string>, row: R, k: string)
    ensures Bucket(rows + [row], keyOf, k) ==
            Bucket(rows, keyOf, k) + (if k != "" && keyOf(row) == Some(k) then [row] else [])
  {
    FilterSnoc(rows, row, DueOn(keyOf, k));
    assert DueOn(keyOf, k)(row) == (k != "" && keyOf(row) == Some(k));
  }

  /** A row without a due date leaves the grouping as it is. */
  lemma GroupedSkip<R>(m: map<string, seq<R>>, keys: seq<string>, rows: seq<R>, keyOf: R -> Option<string>, row: R)
    requires Grouped(m, keys, rows, keyOf) && keyOf(row).GetOr("") == ""
    ensures Grouped(m, keys, rows + [row], keyOf)
  {
    forall k
      ensures Lookup(m, k) == Bucket(rows + [row], keyOf, k)
    {
      BucketSnoc(rows, keyOf, row, k);
    }
    FilterSnoc(rows, row, Dated(keyOf));
    assert !Dated(keyOf)(row);
  }

  /** Adding a row to its date's bucket changes that bucket only. */
  lemma BucketsAfterAdd<R>(m: map<string, seq<R>>, rows: seq<R>, keyOf: R -> Option<string>, row: R, key: string)
    requires forall k :: Lookup(m, k) == Bucket(rows, keyOf, k)
    requires key != "" && keyOf(row) == Some(key)
    ensures forall k :: Lookup(m[key := Lookup(m, key) + [row]], k) == Bucket(rows + [row], keyOf, k)
  {
    forall k
      ensures Lookup(m[key := Lookup(m, key) + [row]], k) == Bucket(rows + [row], keyOf, k)
    {
      BucketSnoc(rows, keyOf, row, k);
    }
  }

  /** A key not yet listed goes at the end, and the list stays free of
      repeats. */
  lemma DistinctSnoc(keys: seq<string>, key: string)
    requires Distinct(keys) && key !in keys
    ensures Distinct(keys + [key])
  {
    var keys2 := keys + [key];
    forall i, j | 0 <= i < j < |keys2|
      ensures keys2[i] != keys2[j]
    {
      assert keys2[i] == keys[i];
      if j < |keys| {
        assert keys2[j] == keys[j];
      }
    }
  }

  /** A row with a due date goes to the end of its date's bucket. */
  lemma GroupedAdd<R>(m: map<string, seq<R>>, keys: seq<string>, rows: seq<R>, keyOf: R -> Option<string>, row: R)
    requires Grouped(m, keys, rows, keyOf) && keyOf(row).GetOr("") != ""
    ensures var key := keyOf(row).GetOr("");
      Grouped(m[key := Lookup(m, key) + [row]], if key in keys then keys else keys + [key], rows + [row], keyOf)
  {
    var key := keyOf(row).GetOr("");
    var m2 := m[key := Lookup(m, key) + [row]];
    var keys2 := if key in keys then keys else keys + [key];
    BucketsAfterAdd(m, rows, keyOf, row, key);
    CountAfterAdd(m, keys, rows, keyOf, row);
    if key !in keys {
      DistinctSnoc(keys, key);
    }
    assert forall k :: k in m2 <==> k in keys2;
  }

  /** Adding a dated row adds one to the total bucket size. */
  lemma CountAfterAdd<R>(m: map<string, seq<R>>, keys: seq<string>, rows: seq<R>, keyOf: R -> Option<string>, row: R)
    requires Distinct(keys) && (forall k :: k in m <==> k in keys)
    requires SumSizes(m, keys) == |Filter(rows, Dated(keyOf))| && keyOf(row).GetOr("") != ""
    ensures var key := keyOf(row).GetOr("");
      SumSizes(m[key := Lookup(m, key) + [row]], if key in keys then keys else keys + [key]) == |Filter(rows + [row], Dated(keyOf))|
  {
    var key := keyOf(row).GetOr("");
    var bucket := Lookup(m, key) + [row];
    FilterSnoc(rows, row, Dated(keyOf));
    assert Dated(keyOf)(row);
    if key in keys {
      SumSizesUpdate(m, keys, key, bucket);
    } else {
      SumSizesFrame(m, keys, key, bucket);
      var keys2 := keys + [key];
      assert keys2[..|keys|] == keys && keys2[|keys|] == key;
      assert Lookup(m, key) == [];
      assert SumSizes(m[key := bucket], keys2) == SumSizes(m[key := bucket], keys) + |bucket|;
    }
  }

  /** The loop of `byDate` at row `i`: skipping an undated row, or adding a
      dated one to its bucket, groups one more row. */
  lemma GroupedNext<R>(m: map<string, seq<R>>, keys: seq<string>, rows: seq<R>, keyOf: R -> Option<string>, i: nat)
    requires i < |rows| && Grouped(m, keys, rows[..i], keyOf)
    ensures var key := keyOf(rows[i]).GetOr("");
      && (key == "" ==> Grouped(m, keys, rows[..i + 1], keyOf))
      && (key != "" ==> Grouped(m[key := Lookup(m, key) + [rows[i]]], if key in keys then keys else keys + [key], rows[..i + 1], keyOf))
  {
    assert rows[..i + 1] == rows[..i] + [rows[i]];
    if keyOf(rows[i]).GetOr("") == "" {
      GroupedSkip(m, keys, rows[..i], keyOf, rows[i]);
    } else {
      GroupedAdd(m, keys, rows[..i], keyOf, rows[i]);
    }
  }

  /** `byDate`: every row with a due date goes to the end of its date's
      bucket and the others are skipped. Returns the map and its keys in
      insertion order (the order a `Map` iterates in), grouped as
      `Grouped` says. */
  method ByDate<R>(rows: seq<R>, keyOf: R -> Option<string>) returns (m: map<string, seq<R>>, keys: seq<string>)
    ensures Grouped(m, keys, rows, keyOf)
  {
    m := map[];
    keys := [];
    for i := 0 to |rows|
      invariant Grouped(m, keys, rows[..i], keyOf)
    {
      var row := rows[i];
      GroupedNext(m, keys, rows, keyOf, i);
      var key := keyOf(row).GetOr("");
      if key == "" {
        continue;
      }
      m := m[key := Lookup(m, key) + [row]];
      if key !in keys {
        keys := keys + [key];
      }
    }
    assert rows[..|rows|] == rows;
  }
}
