/** Sorting newest first, as the feed does it: stable, mergeable, and cut without loss. */
module FeedOrder {
  import opened Feed

  ghost predicate Sorted(rows: seq<Row>) {
    forall i, j | 0 <= i < j < |rows| :: rows[i].createdAt >= rows[j].createdAt
  }

  /** Sorted, and no two rows of one moment. */
  ghost predicate Descending(rows: seq<Row>) {
    forall i, j | 0 <= i < j < |rows| :: rows[i].createdAt > rows[j].createdAt
  }

  // ----------------------------------------------------------------- Sorting

  lemma {:induction false} InsertRow(row: Row, sorted: seq<Row>)
    ensures multiset(Insert(row, sorted)) == multiset(sorted) + multiset{row}
  {
    if sorted != [] && row.createdAt < sorted[0].createdAt {
      InsertRow(row, sorted[1..]);
      assert sorted == [sorted[0]] + sorted[1..];
    }
  }

  /** No row of a list is newer than a moment. */
  ghost predicate NoneAfter(rows: seq<Row>, c: int) {
    forall i | 0 <= i < |rows| :: rows[i].createdAt <= c
  }

  lemma ConsSorted(row: Row, rows: seq<Row>)
    ensures Sorted([row] + rows) <==> NoneAfter(rows, row.createdAt) && Sorted(rows)
  {
    var all := [row] + rows;
    assert all[0] == row && all[1..] == rows;
    if Sorted(all) {
      forall i | 0 <= i < |rows| ensures rows[i].createdAt <= row.createdAt {
        assert rows[i] == all[i + 1];
      }
    }
  }

  lemma {:induction false} InsertSorted(row: Row, sorted: seq<Row>, c: int)
    requires Sorted(sorted) && NoneAfter(sorted, c) && row.createdAt <= c
    ensures Sorted(Insert(row, sorted)) && NoneAfter(Insert(row, sorted), c)
  {
    if sorted == [] || row.createdAt >= sorted[0].createdAt {
      ConsSorted(row, sorted);
    } else {
      assert sorted == [sorted[0]] + sorted[1..];
      ConsSorted(sorted[0], sorted[1..]);
      InsertSorted(row, sorted[1..], sorted[0].createdAt);
      ConsSorted(sorted[0], Insert(row, sorted[1..]));
    }
  }

  /** The sorted list has the same rows as often, newest first. */
  lemma {:induction false} NewestSorted(rows: seq<Row>)
    ensures Sorted(Newest(rows)) && multiset(Newest(rows)) == multiset(rows)
  {
    if rows == [] {
    } else {
      var rest := Newest(rows[1..]);
      assert rows == [rows[0]] + rows[1..];
      NewestSorted(rows[1..]);
      InsertRow(rows[0], rest);
      var first := rows[0].createdAt;
      InsertSorted(rows[0], rest, if rest != [] && rest[0].createdAt > first then rest[0].createdAt else first);
    }
  }

  lemma {:induction false} SortedStays(rows: seq<Row>)
    requires Sorted(rows)
    ensures Newest(rows) == rows
  {
    if rows == [] {
    } else {
      SortedStays(rows[1..]);
      assert rows == [rows[0]] + rows[1..];
    }
  }

  lemma SameNewest(rows: seq<Row>, other: seq<Row>)
    requires rows != [] && other != [] && Descending(rows) && Sorted(other)
    requires rows[0] in other && other[0] in rows
    ensures rows[0] == other[0]
  {
    var k :| 0 <= k < |rows| && rows[k] == other[0];
    var j :| 0 <= j < |other| && other[j] == rows[0];
  }

  lemma TailRows(rows: seq<Row>)
    requires rows != []
    ensures multiset(rows[1..]) == multiset(rows) - multiset{rows[0]}
  {
    assert rows == [rows[0]] + rows[1..];
  }

  lemma HeadIn(rows: seq<Row>, other: seq<Row>)
    requires multiset(rows) == multiset(other)
    ensures |rows| == |other| && (rows != [] ==> rows[0] in other)
  {
    assert |rows| == |multiset(rows)| == |multiset(other)| == |other|;
    if rows != [] {
      assert rows[0] in multiset(rows);
    }
  }

  lemma SameTails(rows: seq<Row>, other: seq<Row>)
    requires rows != [] && other != [] && rows[0] == other[0] && multiset(rows) == multiset(other)
    ensures multiset(rows[1..]) == multiset(other[1..])
    ensures rows[1..] == other[1..] ==> rows == other
  {
    TailRows(rows);
    TailRows(other);
    assert rows == [rows[0]] + rows[1..] && other == [other[0]] + other[1..];
  }

  /** A sorted list of distinct moments is the only sorted list of its rows. */
  lemma {:induction false} OnlyOrder(rows: seq<Row>, other: seq<Row>)
    requires Descending(rows) && Sorted(other) && multiset(rows) == multiset(other)
    ensures rows == other
  {
    HeadIn(rows, other);
    HeadIn(other, rows);
    if rows == [] {
    } else {
      SameNewest(rows, other);
      SameTails(rows, other);
      OnlyOrder(rows[1..], other[1..]);
    }
  }

  // ----------------------------------------------------------------- Merging

  /** The stable merge: of two rows of one moment, the left one first. */
  function Merge(x: seq<Row>, y: seq<Row>): (r: seq<Row>)
    ensures |r| == |x| + |y|
  {
    if x == [] then y
    else if y == [] then x
    else if x[0].createdAt >= y[0].createdAt then [x[0]] + Merge(x[1..], y)
    else [y[0]] + Merge(x, y[1..])
  }

  lemma {:induction false} InsertMerge(row: Row, x: seq<Row>, y: seq<Row>)
    ensures Insert(row, Merge(x, y)) == Merge(Insert(row, x), y)
    decreases |x| + |y|
  {
    if y == [] {
      assert Insert(row, x) != [];
    } else if x == [] {
      assert [row][1..] == [];
      if row.createdAt < y[0].createdAt {
        InsertMerge(row, [], y[1..]);
        assert Merge([], y[1..]) == y[1..];
      } else {
        assert Merge([row], y) == [row] + Merge([], y);
      }
    } else if x[0].createdAt >= y[0].createdAt {
      assert ([x[0]] + Merge(x[1..], y))[1..] == Merge(x[1..], y);
      if row.createdAt < x[0].createdAt {
        InsertMerge(row, x[1..], y);
        assert ([x[0]] + Insert(row, x[1..]))[1..] == Insert(row, x[1..]);
      } else {
        assert ([row] + x)[1..] == x;
      }
    } else {
      assert ([y[0]] + Merge(x, y[1..]))[1..] == Merge(x, y[1..]);
      if row.createdAt < y[0].createdAt {
        InsertMerge(row, x, y[1..]);
      } else {
        assert ([row] + x)[1..] == x;
      }
    }
  }

  /** Sorting two lists together is merging them sorted. */
  lemma {:induction false} NewestConcat(a: seq<Row>, b: seq<Row>)
    ensures Newest(a + b) == Merge(Newest(a), Newest(b))
  {
    if a == [] {
      assert a + b == b;
    } else {
      assert (a + b)[0] == a[0] && (a + b)[1..] == a[1..] + b;
      NewestConcat(a[1..], b);
      InsertMerge(a[0], Newest(a[1..]), Newest(b));
    }
  }

  lemma TakeShared(x: seq<Row>, x': seq<Row>, n: nat)
    requires n > 0 && Take(x, n) == Take(x', n)
    ensures Take(x, n - 1) == Take(x', n - 1)
    ensures x == [] <==> x' == []
    ensures x != [] ==> x[0] == x'[0] && Take(x[1..], n - 1) == Take(x'[1..], n - 1)
  {
    assert Take(x, n - 1) == Take(Take(x, n), n - 1) && Take(x', n - 1) == Take(Take(x', n), n - 1);
    if x != [] {
      assert Take(x, n)[0] == x[0] && Take(x', n)[0] == x'[0];
      assert Take(x[1..], n - 1) == Take(x, n)[1..] && Take(x'[1..], n - 1) == Take(x', n)[1..];
    }
  }

  /** The first n rows of a merge depend on the first n rows of each side alone. */
  lemma {:induction false} SharedMerge(x: seq<Row>, x': seq<Row>, y: seq<Row>, y': seq<Row>, n: nat)
    requires Take(x, n) == Take(x', n) && Take(y, n) == Take(y', n)
    ensures Take(Merge(x, y), n) == Take(Merge(x', y'), n)
    decreases n
  {
    if n == 0 {
      assert Take(Merge(x, y), 0) == [] && Take(Merge(x', y'), 0) == [];
    } else {
      TakeShared(x, x', n);
      TakeShared(y, y', n);
      if x != [] && y != [] {
        if x[0].createdAt >= y[0].createdAt {
          SharedMerge(x[1..], x'[1..], y, y', n - 1);
          TakeOneMore(x[0], Merge(x[1..], y), n);
          TakeOneMore(x[0], Merge(x'[1..], y'), n);
        } else {
          SharedMerge(x, x', y[1..], y'[1..], n - 1);
          TakeOneMore(y[0], Merge(x, y[1..]), n);
          TakeOneMore(y[0], Merge(x', y'[1..]), n);
        }
      }
    }
  }

  lemma TakeOneMore(row: Row, rows: seq<Row>, n: nat)
    requires n > 0
    ensures Take([row] + rows, n) == [row] + Take(rows, n - 1)
  {
  }

  // ------------------------------------------------------------ Below a moment

  /** The rows from before a moment. */
  function Below(rows: seq<Row>, c: int): seq<Row> {
    if rows == [] then []
    else (if rows[0].createdAt < c then [rows[0]] else []) + Below(rows[1..], c)
  }

  lemma BelowCons(row: Row, rows: seq<Row>, c: int)
    ensures Below([row] + rows, c) == if row.createdAt < c then [row] + Below(rows, c) else Below(rows, c)
  {
    assert ([row] + rows)[1..] == rows;
    assert [] + Below(rows, c) == Below(rows, c);
  }

  lemma {:induction false} BelowRows(rows: seq<Row>, c: int)
    ensures forall i | 0 <= i < |Below(rows, c)| :: Below(rows, c)[i].createdAt < c
    ensures |Below(rows, c)| <= |rows|
  {
    if rows == [] {
    } else {
      BelowRows(rows[1..], c);
    }
  }

  lemma {:induction false} InsertBelow(row: Row, rows: seq<Row>, c: int)
    ensures Below(Insert(row, rows), c) == if row.createdAt < c then Insert(row, Below(rows, c)) else Below(rows, c)
  {
    if rows == [] || row.createdAt >= rows[0].createdAt {
      BelowCons(row, rows, c);
      if rows != [] && row.createdAt < c {
        assert rows == [rows[0]] + rows[1..];
        BelowCons(rows[0], rows[1..], c);
      }
    } else {
      InsertBelow(row, rows[1..], c);
      BelowCons(rows[0], Insert(row, rows[1..]), c);
      assert rows == [rows[0]] + rows[1..];
      BelowCons(rows[0], rows[1..], c);
      if rows[0].createdAt < c {
        assert ([rows[0]] + Below(rows[1..], c))[1..] == Below(rows[1..], c);
      }
    }
  }

  /** Sorting and then dropping the newest is dropping and then sorting. */
  lemma {:induction false} NewestBelow(rows: seq<Row>, c: int)
    ensures Newest(Below(rows, c)) == Below(Newest(rows), c)
  {
    if rows == [] {
    } else {
      NewestBelow(rows[1..], c);
      InsertBelow(rows[0], Newest(rows[1..]), c);
      assert rows == [rows[0]] + rows[1..];
      BelowCons(rows[0], rows[1..], c);
      if rows[0].createdAt < c {
        assert ([rows[0]] + Below(rows[1..], c))[1..] == Below(rows[1..], c);
      }
    }
  }

  /** How many rows of a sorted list are not from before a moment. */
  function Reached(rows: seq<Row>, c: int): (k: nat)
    ensures k <= |rows|
    ensures forall i | 0 <= i < k :: rows[i].createdAt >= c
    ensures k < |rows| ==> rows[k].createdAt < c
  {
    if rows == [] || rows[0].createdAt < c then 0 else 1 + Reached(rows[1..], c)
  }

  lemma {:induction false} BelowIsTail(rows: seq<Row>, c: int)
    requires Sorted(rows)
    ensures Below(rows, c) == rows[Reached(rows, c)..]
  {
    if rows == [] {
    } else {
      BelowIsTail(rows[1..], c);
      if rows[0].createdAt < c {
        assert rows == [rows[0]] + rows[1..];
        assert Reached(rows[1..], c) == 0;
      }
    }
  }
}
