/**
 * Helpers for tables kept as maps from an autoincrement primary key to a row:
 * every key lies in [0, next), so the keys can be enumerated in ascending
 * order (an ORDER BY id), and rows can be filtered (a WHERE clause).
 */
module Tables {

  predicate Increasing(s: seq<int>) {
    forall i, j :: 0 <= i < j < |s| ==> s[i] < s[j]
  }

  /** Every key of the table was handed out by a counter now at `next`. */
  predicate KeysBelow<T>(m: map<int, T>, next: int) {
    forall id :: id in m ==> 0 <= id < next
  }

  /** The keys below `n` whose rows satisfy `p`, in ascending order. */
  function KeysWhere<T>(m: map<int, T>, n: int, p: T -> bool): (r: seq<int>)
    ensures Increasing(r)
    ensures forall i :: 0 <= i < |r| ==> 0 <= r[i] < n
    ensures forall id :: id in r <==> 0 <= id < n && id in m && p(m[id])
    decreases n
  {
    if n <= 0 then []
    else
      var rest := KeysWhere(m, n - 1, p);
      if n - 1 in m && p(m[n - 1]) then rest + [n - 1] else rest
  }

  /** The rows of `m` at the keys `ids`, in that order. */
  function RowsAt<T>(m: map<int, T>, ids: seq<int>): (r: seq<T>)
    requires forall i :: 0 <= i < |ids| ==> ids[i] in m
    ensures |r| == |ids|
    ensures forall i :: 0 <= i < |ids| ==> r[i] == m[ids[i]]
  {
    seq(|ids|, i requires 0 <= i < |ids| => m[ids[i]])
  }

  /** A listed row together with its primary key, as the response models carry `id`. */
  datatype Entry<T> = Entry(id: int, row: T)

  /**
   * `r` lists the rows of `m` satisfying `p`, each once, with its key, in
   * strictly ascending key order, and nothing else.
   */
  predicate Selects<T(==)>(r: seq<Entry<T>>, m: map<int, T>, p: T -> bool) {
    && (forall i, j :: 0 <= i < j < |r| ==> r[i].id < r[j].id)
    && (forall i :: 0 <= i < |r| ==> r[i].id in m && m[r[i].id] == r[i].row && p(r[i].row))
    && (forall id :: id in m && p(m[id]) ==> exists i :: 0 <= i < |r| && r[i].id == id)
  }

  /**
   * SELECT * WHERE p over a table whose keys lie below `next`: exactly the
   * rows satisfying `p`, in ascending key order.
   */
  function SelectWhere<T(==)>(m: map<int, T>, next: int, p: T -> bool): (r: seq<Entry<T>>)
    requires KeysBelow(m, next)
    ensures Selects(r, m, p)
  {
    var ids := KeysWhere(m, next, p);
    var r := seq(|ids|, i requires 0 <= i < |ids| => Entry(ids[i], m[ids[i]]));
    forall id | id in m && p(m[id]) ensures exists i :: 0 <= i < |r| && r[i].id == id {
      assert id in ids;
      var k :| 0 <= k < |ids| && ids[k] == id;
      assert r[k].id == id;
    }
    r
  }

  /** A listing is determined by the table and the filter: two listings that select the same rows are equal. */
  lemma {:induction false} SelectionIsUnique<T>(r1: seq<Entry<T>>, r2: seq<Entry<T>>, m: map<int, T>, p: T -> bool)
    requires Selects(r1, m, p) && Selects(r2, m, p)
    ensures r1 == r2
    decreases |r1|
  {
    SelectsNothing(r1, r2, m, p);
    if r1 != [] {
      var rest := m - {r1[0].id};
      SelectsSameFirst(r1, r2, m, p);
      SelectsTail(r1, m, p);
      SelectsTail(r2, m, p);
      SelectionIsUnique(r1[1..], r2[1..], rest, p);
      SameHeadSameTail(r1, r2);
    }
  }

  /** A listing is empty exactly when no row satisfies the filter, so two listings of the same rows are empty together. */
  lemma SelectsNothing<T>(r1: seq<Entry<T>>, r2: seq<Entry<T>>, m: map<int, T>, p: T -> bool)
    requires Selects(r1, m, p) && Selects(r2, m, p)
    ensures r1 == [] <==> r2 == []
  {
    if r1 != [] {
      assert r1[0].id in m && p(m[r1[0].id]);
    }
    if r2 != [] {
      assert r2[0].id in m && p(m[r2[0].id]);
    }
  }

  /** Two non-empty listings of the same rows start with the entry of the smallest selected key. */
  lemma SelectsSameFirst<T>(r1: seq<Entry<T>>, r2: seq<Entry<T>>, m: map<int, T>, p: T -> bool)
    requires Selects(r1, m, p) && Selects(r2, m, p) && r1 != [] && r2 != []
    ensures r1[0] == r2[0]
  {
    var first := r1[0].id;
    assert first in m && p(m[first]);
    var j :| 0 <= j < |r2| && r2[j].id == first;
    assert r2[0].id in m && p(m[r2[0].id]);
    var k :| 0 <= k < |r1| && r1[k].id == r2[0].id;
    assert r1[0].id <= r1[k].id;
    assert j == 0;
  }

  /** Sequences that agree on their first element and on the rest are equal. */
  lemma SameHeadSameTail<E>(a: seq<E>, b: seq<E>)
    requires a != [] && b != [] && a[0] == b[0] && a[1..] == b[1..]
    ensures a == b
  {
    assert a == [a[0]] + a[1..] && b == [b[0]] + b[1..];
  }

  /** Dropping the first entry of a listing lists the table without that row. */
  lemma SelectsTail<T>(r: seq<Entry<T>>, m: map<int, T>, p: T -> bool)
    requires Selects(r, m, p) && r != []
    ensures Selects(r[1..], m - {r[0].id}, p)
  {
    var t := r[1..];
    var rest := m - {r[0].id};
    forall i | 0 <= i < |t| ensures t[i].id in rest && rest[t[i].id] == t[i].row && p(t[i].row) {
      assert t[i] == r[i + 1] && r[0].id < r[i + 1].id;
    }
    forall id | id in rest && p(rest[id]) ensures exists i :: 0 <= i < |t| && t[i].id == id {
      var k :| 0 <= k < |r| && r[k].id == id;
      assert k != 0 && t[k - 1].id == id;
    }
  }
}
