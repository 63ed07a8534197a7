/**
 * What the queries of the jobs return: the rows that meet a condition, in
 * table order, at most so many.
 */
module Selection {

  function Selected<T>(rows: seq<T>, wanted: T -> bool, take: nat): (ids: seq<nat>)
    ensures forall k | 0 <= k < |ids| :: ids[k] < |rows| && wanted(rows[ids[k]])
    ensures |ids| <= take
  {
    if rows == [] then []
    else
      var n := |rows| - 1;
      var ids := Selected(rows[..n], wanted, take);
      assert forall k | 0 <= k < |ids| :: rows[ids[k]] == rows[..n][ids[k]];
      if |ids| < take && wanted(rows[n]) then ids + [n] else ids
  }

  ghost predicate Increasing(ids: seq<nat>) {
    forall i, j | 0 <= i < j < |ids| :: ids[i] < ids[j]
  }

  ghost predicate Distinct(ids: seq<nat>) {
    forall i, j | 0 <= i < j < |ids| :: ids[i] != ids[j]
  }

  /** A row is selected, or so many before it were that there was no room left. */
  ghost predicate InOrBehind(ids: seq<nat>, take: nat, i: nat) {
    i in ids || (|ids| == take && forall id | id in ids :: id < i)
  }

  /** Each once, in order, and a wanted row is passed over only when the limit is full of earlier ones. */
  lemma {:induction false} FirstOfThem<T>(rows: seq<T>, wanted: T -> bool, take: nat)
    ensures Increasing(Selected(rows, wanted, take))
    ensures forall i: nat | i < |rows| && wanted(rows[i]) :: InOrBehind(Selected(rows, wanted, take), take, i)
  {
    if rows == [] {
    } else {
      var n := |rows| - 1;
      FirstOfThem(rows[..n], wanted, take);
      var before, ids := Selected(rows[..n], wanted, take), Selected(rows, wanted, take);
      assert ids == before || ids == before + [n];
      forall i: nat | i < |rows| && wanted(rows[i]) ensures InOrBehind(ids, take, i) {
        if i < n {
          assert rows[..n][i] == rows[i];
          assert InOrBehind(before, take, i);
        }
      }
    }
  }

  /** Whatever is wanted and stands before a selected row is selected before it. */
  lemma SelectedBefore<T>(rows: seq<T>, wanted: T -> bool, take: nat, i: nat, s: nat)
    requires i < |Selected(rows, wanted, take)| && s < Selected(rows, wanted, take)[i] && wanted(rows[s])
    ensures s in Selected(rows, wanted, take)[..i]
  {
    var ids := Selected(rows, wanted, take);
    FirstOfThem(rows, wanted, take);
    assert InOrBehind(ids, take, s);
    assert ids[i] in ids;
    var k :| 0 <= k < |ids| && ids[k] == s;
    assert k < i;
    assert ids[..i][k] == s;
  }
}
