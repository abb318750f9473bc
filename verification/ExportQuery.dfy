/** The export query: rows by descending id under a cursor, one more than a page of them. */
module ExportQuery {
  import opened Decimal
  import opened Sequences

  const PAGE_LENGTH: nat := 1000

  /** A table of readable rows by id. */
  type Table = map<int, string>

  datatype Row = Row(id: int, data: string)

  /** Database ids are positive 64-bit integers. */
  ghost predicate ProperIds(table: Table) {
    forall id :: id in table ==> 0 < id <= MAX_INT
  }

  // ---------------------------------------------------------------- the query

  predicate Above(a: int, b: int) {
    a > b
  }

  /** The ids in descending order. */
  ghost function Ordered(ids: set<int>): (r: seq<int>)
    ensures IsSorted(r, ids, Above)
    ensures forall i :: 0 <= i < |r| ==> r[i] in ids
  {
    assert exists r :: IsSorted(r, ids, Above) by {
      var r := SortedExists(ids, Above);
    }
    var r :| IsSorted(r, ids, Above);
    assert forall i :: 0 <= i < |r| ==> r[i] in r;
    r
  }

  lemma {:induction false} OrderedSize(r: seq<int>, ids: set<int>)
    requires IsSorted(r, ids, Above)
    ensures |r| == |ids|
  {
    if r == [] {
      assert forall id :: id !in ids;
      assert ids == {};
    } else {
      assert r[0] in r;
      SortedTail(r, ids, Above);
      OrderedSize(r[1..], ids - {r[0]});
    }
  }

  /** Cutting the descending ids at a position leaves the ids under the last one before it. */
  lemma OrderedTail(ids: set<int>, n: nat)
    requires 0 < n <= |Ordered(ids)|
    ensures Ordered(set id | id in ids && id < Ordered(ids)[n - 1]) == Ordered(ids)[n..]
  {
    var all := Ordered(ids);
    var under := set id | id in ids && id < all[n - 1];
    var r := all[n..];
    forall id ensures id in r <==> id in under {
      if id in r {
        var k :| 0 <= k < |r| && r[k] == id;
        assert all[n + k] == id && id in all;
      }
      if id in under {
        assert id in all;
        var k :| 0 <= k < |all| && all[k] == id;
        assert r[k - n] == id;
      }
    }
    SortedUnique(r, Ordered(under), under, Above);
  }

  /** A cursor of zero is no cursor. */
  function Below(table: Table, idMax: int): set<int> {
    set id | id in table && (idMax == 0 || id < idMax)
  }

  ghost function RowsOf(table: Table, ids: seq<int>): seq<Row>
    requires forall i :: 0 <= i < |ids| ==> ids[i] in table
  {
    seq(|ids|, i requires 0 <= i < |ids| => Row(ids[i], table[ids[i]]))
  }

  /** All the rows under the cursor, and the query's answer: at most one row more than a page. */
  ghost function Remaining(table: Table, idMax: int): seq<Row> {
    RowsOf(table, Ordered(Below(table, idMax)))
  }

  function Limited(rows: seq<Row>, n: nat): seq<Row> {
    if |rows| <= n then rows else rows[..n]
  }

  ghost function Query(table: Table, idMax: int): seq<Row> {
    Limited(Remaining(table, idMax), PAGE_LENGTH + 1)
  }

  /** The page after a full one starts where that one ended. */
  lemma RemainingTail(table: Table, idMax: int, n: nat)
    requires ProperIds(table) && 0 < n <= |Remaining(table, idMax)|
    ensures Remaining(table, Remaining(table, idMax)[n - 1].id) == Remaining(table, idMax)[n..]
  {
    var ids := Below(table, idMax);
    var last := Ordered(ids)[n - 1];
    assert last in Ordered(ids);
    OrderedTail(ids, n);
    assert Below(table, last) == set id | id in ids && id < last;
    hide Below;
    hide Ordered;
  }

  lemma RemainingRows(table: Table, idMax: int)
    requires ProperIds(table)
    ensures forall r :: r in Remaining(table, idMax) ==> r.id in table && 0 < r.id <= MAX_INT
  {
    var ids := Ordered(Below(table, idMax));
    assert forall k :: 0 <= k < |ids| ==> ids[k] in ids;
  }
}
