/**
 * `pd.concat(all_dfs).drop_duplicates("timestamp").sort_values("timestamp")`:
 * the kept chunks are concatenated in request order, only the first row of
 * each timestamp survives, and the survivors are put in ascending order of
 * timestamp.
 */
module Consolidation {

  import opened Candles

  /** The rows of all chunks, in order. */
  function Concat<P>(chunks: seq<seq<Candle<P>>>): seq<Candle<P>>
  {
    if chunks == [] then [] else Concat(chunks[..|chunks| - 1]) + chunks[|chunks| - 1]
  }

  /** The timestamps that occur in `rows`. */
  function Keys<P>(rows: seq<Candle<P>>): set<int>
  {
    set i | 0 <= i < |rows| :: rows[i].ts
  }

  /** No two rows share a timestamp. */
  predicate UniqueTs<P>(rows: seq<Candle<P>>) {
    forall i, j :: 0 <= i < j < |rows| ==> rows[i].ts != rows[j].ts
  }

  /** Ascending by timestamp, ties allowed. */
  predicate SortedTs<P>(rows: seq<Candle<P>>) {
    forall i, j :: 0 <= i < j < |rows| ==> rows[i].ts <= rows[j].ts
  }

  /** Strictly ascending by timestamp. */
  predicate StrictlySortedTs<P>(rows: seq<Candle<P>>) {
    forall i, j :: 0 <= i < j < |rows| ==> rows[i].ts < rows[j].ts
  }

  /** The position of the first row of `rows` whose timestamp is `t`. */
  function FirstIndex<P>(rows: seq<Candle<P>>, t: int): (k: nat)
    requires t in Keys(rows)
    ensures k < |rows| && rows[k].ts == t
    ensures forall j :: 0 <= j < k ==> rows[j].ts != t
  {
    var init := rows[..|rows| - 1];
    if t in Keys(init) then
      assert forall j :: 0 <= j < |init| ==> init[j] == rows[j];
      FirstIndex(init, t)
    else
      assert forall j :: 0 <= j < |init| ==> init[j].ts in Keys(init);
      |rows| - 1
  }

  /** The first row of `rows` whose timestamp is `t`. */
  function FirstRow<P>(rows: seq<Candle<P>>, t: int): Candle<P>
    requires t in Keys(rows)
  {
    rows[FirstIndex(rows, t)]
  }

  /** `drop_duplicates("timestamp")`: keep a row only when no earlier row has
      its timestamp; the survivors keep their order. */
  function Dedup<P>(rows: seq<Candle<P>>): (r: seq<Candle<P>>)
    ensures |r| <= |rows|
  {
    if rows == [] then []
    else
      var init, last := rows[..|rows| - 1], rows[|rows| - 1];
      if last.ts in Keys(init) then Dedup(init) else Dedup(init) + [last]
  }

  /** Puts `x` into the ascending `rows` after every row whose timestamp is
      not larger. */
  function Insert<P>(x: Candle<P>, rows: seq<Candle<P>>): (r: seq<Candle<P>>)
    ensures multiset(r) == multiset(rows) + multiset{x}
  {
    if rows == [] then [x]
    else if x.ts < rows[0].ts then [x] + rows
    else
      assert rows == [rows[0]] + rows[1..];
      [rows[0]] + Insert(x, rows[1..])
  }

  /** No row of `rows` has a timestamp below `lo`. */
  predicate AllAtLeast<P>(rows: seq<Candle<P>>, lo: int) {
    forall k :: 0 <= k < |rows| ==> lo <= rows[k].ts
  }

  lemma {:induction false} InsertSorted<P>(x: Candle<P>, rows: seq<Candle<P>>, lo: int)
    requires SortedTs(rows) && AllAtLeast(rows, lo) && lo <= x.ts
    ensures SortedTs(Insert(x, rows)) && AllAtLeast(Insert(x, rows), lo)
  {
    if rows == [] {
      ConsSorted(x, rows, lo);
    } else if x.ts < rows[0].ts {
      ConsSorted(x, rows, lo);
    } else {
      var tail := rows[1..];
      assert forall k :: 0 <= k < |tail| ==> tail[k] == rows[k + 1];
      InsertSorted(x, tail, rows[0].ts);
      ConsSorted(rows[0], Insert(x, tail), lo);
    }
  }

  lemma ConsSorted<P>(h: Candle<P>, t: seq<Candle<P>>, lo: int)
    requires SortedTs(t) && AllAtLeast(t, h.ts) && lo <= h.ts
    ensures SortedTs([h] + t) && AllAtLeast([h] + t, lo)
  {
    var r := [h] + t;
    assert forall k :: 0 < k < |r| ==> r[k] == t[k - 1];
  }

  /** `sort_values("timestamp")`, as an insertion sort. */
  function SortByTs<P>(rows: seq<Candle<P>>): (r: seq<Candle<P>>)
    ensures SortedTs(r)
    ensures multiset(r) == multiset(rows)
  {
    if rows == [] then []
    else
      var rest := SortByTs(rows[1..]);
      assert rows == [rows[0]] + rows[1..];
      InsertSorted(rows[0], rest, if rest == [] || rows[0].ts <= rest[0].ts then rows[0].ts else rest[0].ts);
      Insert(rows[0], rest)
  }

  /** The whole pipeline on the kept chunks. */
  function Consolidate<P>(chunks: seq<seq<Candle<P>>>): seq<Candle<P>>
  {
    SortByTs(Dedup(Concat(chunks)))
  }

  lemma KeysAppend<P>(a: seq<Candle<P>>, b: seq<Candle<P>>)
    ensures Keys(a + b) == Keys(a) + Keys(b)
  {
    var ab := a + b;
    forall t | t in Keys(ab) ensures t in Keys(a) + Keys(b) {
      var i :| 0 <= i < |ab| && ab[i].ts == t;
      if i < |a| { assert ab[i] == a[i]; } else { assert ab[i] == b[i - |a|]; }
    }
    forall t | t in Keys(a) + Keys(b) ensures t in Keys(ab) {
      if t in Keys(a) {
        var i :| 0 <= i < |a| && a[i].ts == t;
        assert ab[i] == a[i];
      } else {
        var i :| 0 <= i < |b| && b[i].ts == t;
        assert ab[|a| + i] == b[i];
      }
    }
  }

  /** Splits `rows` into everything but its last row, and that row. */
  lemma SplitLast<P>(rows: seq<Candle<P>>)
    requires rows != []
    ensures rows == rows[..|rows| - 1] + [rows[|rows| - 1]]
    ensures Keys(rows) == Keys(rows[..|rows| - 1]) + {rows[|rows| - 1].ts}
  {
    var init, last := rows[..|rows| - 1], rows[|rows| - 1];
    assert rows == init + [last];
    KeysAppend(init, [last]);
    assert Keys([last]) == {last.ts} by { assert [last][0] == last; }
  }

  /** Deduplication drops no timestamp and keeps one row per timestamp. */
  lemma {:induction false} DedupKeys<P>(rows: seq<Candle<P>>)
    ensures Keys(Dedup(rows)) == Keys(rows)
    ensures UniqueTs(Dedup(rows))
    ensures |Dedup(rows)| == |Keys(rows)|
  {
    if rows != [] {
      var init, last := rows[..|rows| - 1], rows[|rows| - 1];
      SplitLast(rows);
      DedupKeys(init);
      var d := Dedup(init);
      if last.ts in Keys(init) {
        assert Dedup(rows) == d;
      } else {
        assert Dedup(rows) == d + [last];
        UniqueSnoc(d, last);
      }
    }
  }

  /** Appending a row with a new timestamp keeps the timestamps unique. */
  lemma UniqueSnoc<P>(d: seq<Candle<P>>, x: Candle<P>)
    requires UniqueTs(d) && x.ts !in Keys(d)
    ensures UniqueTs(d + [x])
    ensures Keys(d + [x]) == Keys(d) + {x.ts}
  {
    KeysAppend(d, [x]);
    assert Keys([x]) == {x.ts} by { assert [x][0] == x; }
    assert forall i :: 0 <= i < |d| ==> d[i].ts in Keys(d);
  }

  /** A row survives deduplication exactly when it is the first row with
      its timestamp. */
  lemma {:induction false} DedupKeepsFirst<P>(rows: seq<Candle<P>>)
    ensures forall x :: x in Dedup(rows) <==> x.ts in Keys(rows) && x == FirstRow(rows, x.ts)
  {
    if rows != [] {
      var init, last := rows[..|rows| - 1], rows[|rows| - 1];
      SplitLast(rows);
      DedupKeepsFirst(init);
      forall t | t in Keys(init) ensures FirstRow(rows, t) == FirstRow(init, t) { }
      if last.ts !in Keys(init) {
        DedupKeys(init);
        assert FirstIndex(rows, last.ts) == |rows| - 1;
      }
    }
  }

  /** No row of `rows` has timestamp `t`. */
  predicate FreshTs<P>(rows: seq<Candle<P>>, t: int) {
    forall k :: 0 <= k < |rows| ==> rows[k].ts != t
  }

  lemma FreshTsKeys<P>(rows: seq<Candle<P>>, t: int)
    ensures FreshTs(rows, t) <==> t !in Keys(rows)
  {
    if !FreshTs(rows, t) {
      var k :| 0 <= k < |rows| && rows[k].ts == t;
    }
  }

  lemma {:induction false} InsertKeys<P>(x: Candle<P>, rows: seq<Candle<P>>)
    ensures Keys(Insert(x, rows)) == Keys(rows) + {x.ts}
  {
    assert Keys([x]) == {x.ts} by { assert [x][0] == x; }
    if rows == [] {
    } else if x.ts < rows[0].ts {
      KeysAppend([x], rows);
    } else {
      var head := [rows[0]];
      assert rows == head + rows[1..];
      assert Keys(head) == {rows[0].ts} by { assert head[0] == rows[0]; }
      KeysAppend(head, rows[1..]);
      InsertKeys(x, rows[1..]);
      KeysAppend(head, Insert(x, rows[1..]));
    }
  }

  /** Every row of `rows` has a timestamp above `lo`. */
  predicate AllAbove<P>(rows: seq<Candle<P>>, lo: int) {
    forall k :: 0 <= k < |rows| ==> lo < rows[k].ts
  }

  lemma {:induction false} InsertStrict<P>(x: Candle<P>, rows: seq<Candle<P>>, lo: int)
    requires StrictlySortedTs(rows) && FreshTs(rows, x.ts) && AllAbove(rows, lo) && lo < x.ts
    ensures StrictlySortedTs(Insert(x, rows)) && AllAbove(Insert(x, rows), lo)
  {
    if rows == [] {
      ConsStrict(x, rows, lo);
    } else if x.ts < rows[0].ts {
      ConsStrict(x, rows, lo);
    } else {
      var tail := rows[1..];
      assert forall k :: 0 <= k < |tail| ==> tail[k] == rows[k + 1];
      assert x.ts != rows[0].ts;
      InsertStrict(x, tail, rows[0].ts);
      ConsStrict(rows[0], Insert(x, tail), lo);
    }
  }

  lemma ConsStrict<P>(h: Candle<P>, t: seq<Candle<P>>, lo: int)
    requires StrictlySortedTs(t) && AllAbove(t, h.ts) && lo < h.ts
    ensures StrictlySortedTs([h] + t) && AllAbove([h] + t, lo)
  {
    var r := [h] + t;
    assert forall k :: 0 < k < |r| ==> r[k] == t[k - 1];
  }

  lemma {:induction false} SortKeys<P>(rows: seq<Candle<P>>)
    ensures Keys(SortByTs(rows)) == Keys(rows)
  {
    if rows != [] {
      var head := [rows[0]];
      assert rows == head + rows[1..];
      assert Keys(head) == {rows[0].ts} by { assert head[0] == rows[0]; }
      KeysAppend(head, rows[1..]);
      SortKeys(rows[1..]);
      InsertKeys(rows[0], SortByTs(rows[1..]));
    }
  }

  /** Sorting rows with distinct timestamps makes them strictly ascending. */
  lemma {:induction false} SortStrict<P>(rows: seq<Candle<P>>)
    requires UniqueTs(rows)
    ensures StrictlySortedTs(SortByTs(rows))
  {
    if rows != [] {
      var x, rest := rows[0], SortByTs(rows[1..]);
      SortStrict(rows[1..]);
      SortKeys(rows[1..]);
      assert FreshTs(rows[1..], x.ts);
      FreshTsKeys(rows[1..], x.ts);
      FreshTsKeys(rest, x.ts);
      var lo := if rest == [] || x.ts < rest[0].ts then x.ts - 1 else rest[0].ts - 1;
      InsertStrict(x, rest, lo);
    }
  }

  /** Two strictly ascending sequences with the same rows are equal: the
      result of the pipeline does not depend on the sorting algorithm. */
  lemma {:induction false} StrictlySortedUnique<P>(a: seq<Candle<P>>, b: seq<Candle<P>>)
    requires StrictlySortedTs(a) && StrictlySortedTs(b)
    requires forall x :: x in a <==> x in b
    ensures a == b
  {
    assert b != [] ==> b[0] in b;
    if a == [] {
      if b != [] { assert false; }
    } else {
      assert a[0] in b;
      assert b != [];
      assert b[0] in a;
      var k :| 0 <= k < |b| && b[k] == a[0];
      var m :| 0 <= m < |a| && a[m] == b[0];
      assert k == 0 by {
        if k > 0 { assert false; }
      }
      forall x ensures x in a[1..] <==> x in b[1..] {
        if x in a[1..] {
          var i :| 1 <= i < |a| && a[i] == x;
          assert x in b && x.ts > a[0].ts;
        }
        if x in b[1..] {
          var i :| 1 <= i < |b| && b[i] == x;
          assert x in a && x.ts > b[0].ts;
        }
      }
      StrictlySortedUnique(a[1..], b[1..]);
      assert a == [a[0]] + a[1..] && b == [b[0]] + b[1..];
    }
  }

  /** The consolidated series: strictly ascending by timestamp (so no two
      rows share one), every timestamp of the concatenation is there and no
      other, each timestamp carries the first row that had it, it is a
      permutation of the deduplicated rows, and it has one row per distinct
      timestamp, so no more rows than were fetched. */
  lemma ConsolidateProperties<P>(chunks: seq<seq<Candle<P>>>)
    ensures StrictlySortedTs(Consolidate(chunks))
    ensures UniqueTs(Consolidate(chunks))
    ensures Keys(Consolidate(chunks)) == Keys(Concat(chunks))
    ensures forall x :: x in Consolidate(chunks) <==>
      x.ts in Keys(Concat(chunks)) && x == FirstRow(Concat(chunks), x.ts)
    ensures multiset(Consolidate(chunks)) == multiset(Dedup(Concat(chunks)))
    ensures |Consolidate(chunks)| == |Keys(Concat(chunks))| <= |Concat(chunks)|
  {
    var c := Concat(chunks);
    var d := Dedup(c);
    DedupKeys(c);
    DedupKeepsFirst(c);
    SortStrict(d);
    SortKeys(d);
    SortSameRows(d);
  }

  /** Sorting keeps the rows and their number. */
  lemma SortSameRows<P>(rows: seq<Candle<P>>)
    ensures forall x :: x in SortByTs(rows) <==> x in rows
    ensures |SortByTs(rows)| == |rows|
  {
    var r := SortByTs(rows);
    assert |multiset(r)| == |multiset(rows)|;
    forall x ensures x in r <==> x in rows {
      assert x in r <==> x in multiset(r);
      assert x in rows <==> x in multiset(rows);
    }
  }

  /** Any strictly ascending sequence made of exactly the first row of each
      fetched timestamp is the consolidated series. */
  lemma ConsolidateDetermined<P>(chunks: seq<seq<Candle<P>>>, other: seq<Candle<P>>)
    requires StrictlySortedTs(other)
    requires forall x :: x in other <==>
      x.ts in Keys(Concat(chunks)) && x == FirstRow(Concat(chunks), x.ts)
    ensures other == Consolidate(chunks)
  {
    ConsolidateProperties(chunks);
    StrictlySortedUnique(other, Consolidate(chunks));
  }

  /** A position holding `t` with no earlier one is the first index of `t`. */
  lemma FirstIndexIs<P>(rows: seq<Candle<P>>, t: int, k: nat)
    requires k < |rows| && rows[k].ts == t
    requires forall j :: 0 <= j < k ==> rows[j].ts != t
    ensures t in Keys(rows) && FirstIndex(rows, t) == k
  {
    assert rows[k].ts in Keys(rows);
  }

  /** The first row of `t` in `a + b` is its first row in `a` when `a` has
      it, and its first row in `b` otherwise. */
  lemma FirstRowAppend<P>(a: seq<Candle<P>>, b: seq<Candle<P>>, t: int)
    requires t in Keys(a + b)
    ensures t in Keys(a) ==> FirstRow(a + b, t) == FirstRow(a, t)
    ensures t !in Keys(a) ==> t in Keys(b) && FirstRow(a + b, t) == FirstRow(b, t)
  {
    KeysAppend(a, b);
    if t in Keys(a) {
      var k := FirstIndex(a, t);
      FirstIndexIs(a + b, t, k);
    } else {
      var k := FirstIndex(b, t);
      FreshTsKeys(a, t);
      FirstIndexIs(a + b, t, |a| + k);
    }
  }

  /** The first row of a timestamp in the concatenation is its first row in
      the earliest chunk that has it. */
  lemma {:induction false} FirstRowEarliestChunk<P>(chunks: seq<seq<Candle<P>>>, t: int)
    requires t in Keys(Concat(chunks))
    ensures exists k :: 0 <= k < |chunks| && t in Keys(chunks[k]) &&
                        (forall j :: 0 <= j < k ==> t !in Keys(chunks[j])) &&
                        FirstRow(Concat(chunks), t) == FirstRow(chunks[k], t)
  {
    var init, last := chunks[..|chunks| - 1], chunks[|chunks| - 1];
    var c := Concat(init);
    assert Concat(chunks) == c + last;
    FirstRowAppend(c, last, t);
    assert forall j :: 0 <= j < |init| ==> init[j] == chunks[j];
    if t in Keys(c) {
      FirstRowEarliestChunk(init, t);
      var k :| 0 <= k < |init| && t in Keys(init[k]) &&
        (forall j :: 0 <= j < k ==> t !in Keys(init[j])) && FirstRow(c, t) == FirstRow(init[k], t);
      assert chunks[k] == init[k];
    } else {
      ConcatRows(init);
      assert forall j :: 0 <= j < |init| ==> t !in Keys(chunks[j]);
    }
  }

  /** A timestamp of any kept chunk reaches the concatenation, and every row
      of the concatenation comes from some chunk. */
  lemma {:induction false} ConcatRows<P>(chunks: seq<seq<Candle<P>>>)
    ensures forall i :: 0 <= i < |chunks| ==> Keys(chunks[i]) <= Keys(Concat(chunks))
    ensures forall x :: x in Concat(chunks) ==> exists i :: 0 <= i < |chunks| && x in chunks[i]
  {
    if chunks != [] {
      var init, last := chunks[..|chunks| - 1], chunks[|chunks| - 1];
      ConcatRows(init);
      KeysAppend(Concat(init), last);
      forall x | x in Concat(chunks) ensures exists i :: 0 <= i < |chunks| && x in chunks[i] {
        if x in Concat(init) {
          var i :| 0 <= i < |init| && x in init[i];
          assert chunks[i] == init[i];
        } else {
          assert x in chunks[|chunks| - 1];
        }
      }
      forall i | 0 <= i < |chunks| ensures Keys(chunks[i]) <= Keys(Concat(chunks)) {
        if i < |init| { assert chunks[i] == init[i]; }
      }
    }
  }
}
