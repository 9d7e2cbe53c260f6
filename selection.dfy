/** `DataFrame.nsmallest(k, 'distance')` of meta.py:92 with pandas' default `keep='first'`:
    the `k` rows with the smallest distance, listed by non-decreasing distance, where among
    rows at the same distance the one earlier in the table wins and is listed first.
    Rows are identified by their position in the table. */
module Selection {
  import opened Numbers

  /** Row `i` ranks before row `j`: it is nearer, or equally near and earlier in the table.
      This is a strict total order on the rows of a distance column `d`. */
  predicate Before(d: seq<int>, i: nat, j: nat) {
    i < |d| && j < |d| && (d[i] < d[j] || (d[i] == d[j] && i < j))
  }

  /** Every entry of `rows` is a row of `d`. */
  predicate InRange(d: seq<int>, rows: seq<nat>) {
    forall t :: 0 <= t < |rows| ==> rows[t] < |d|
  }

  /** `rows` lists rows of `d` in strictly increasing rank (so without repetition). */
  predicate Ranked(d: seq<int>, rows: seq<nat>) {
    InRange(d, rows) && forall t, u :: 0 <= t < u < |rows| ==> Before(d, rows[t], rows[u])
  }

  /** What `nsmallest(k)` must return: `min(k, rows)` rows in rank order, each ranking before
      every row left out. */
  predicate IsSelection(d: seq<int>, k: nat, sel: seq<nat>) {
    |sel| == Min(k, |d|)
    && Ranked(d, sel)
    && forall t, j :: 0 <= t < |sel| && 0 <= j < |d| && j !in sel ==> Before(d, sel[t], j)
  }

  /** Inserts row `x` into a ranked list at its place. */
  function Insert(d: seq<int>, x: nat, rows: seq<nat>): (r: seq<nat>)
    ensures |r| == |rows| + 1
    ensures forall y :: y in r <==> y == x || y in rows
    ensures multiset(r) == multiset(rows) + multiset{x}
  {
    if rows == [] then [x]
    else if Before(d, x, rows[0]) then [x] + rows
    else
      assert rows == [rows[0]] + rows[1..];
      [rows[0]] + Insert(d, x, rows[1..])
  }

  lemma {:induction false} InsertRanked(d: seq<int>, x: nat, rows: seq<nat>)
    requires Ranked(d, rows) && x < |d| && x !in rows
    ensures Ranked(d, Insert(d, x, rows))
  {
    if rows == [] {
    } else if Before(d, x, rows[0]) {
      var r := [x] + rows;
      forall t, u | 0 <= t < u < |r| ensures Before(d, r[t], r[u]) {
        assert r[u] == rows[u - 1];
        if t > 0 {
          assert r[t] == rows[t - 1];
        } else {
          assert u - 1 == 0 || Before(d, rows[0], rows[u - 1]);
        }
      }
    } else {
      var tail := Insert(d, x, rows[1..]);
      InsertRanked(d, x, rows[1..]);
      assert Before(d, rows[0], x);
      var r := [rows[0]] + tail;
      forall t, u | 0 <= t < u < |r| ensures Before(d, r[t], r[u]) {
        assert r[u] == tail[u - 1];
        if t > 0 {
          assert r[t] == tail[t - 1];
        } else {
          var y := tail[u - 1];
          assert y in tail;
          if y != x {
            var v :| 0 <= v < |rows[1..]| && rows[1..][v] == y;
            assert Before(d, rows[0], rows[v + 1]);
          }
        }
      }
    }
  }

  /** The first `n` rows of `d`, sorted by rank (a stable sort by distance). */
  function RankAll(d: seq<int>, n: nat): (r: seq<nat>)
    requires n <= |d|
    ensures |r| == n
    ensures forall y: int :: y in r <==> 0 <= y < n
    ensures Ranked(d, r)
  {
    if n == 0 then []
    else
      var rows := RankAll(d, n - 1);
      InsertRanked(d, n - 1, rows);
      Insert(d, n - 1, rows)
  }

  /** `nsmallest(k)` on the distance column `d`: the first `k` rows of the stable sort. */
  function NSmallest(d: seq<int>, k: nat): (sel: seq<nat>)
    ensures IsSelection(d, k, sel)
  {
    var all := RankAll(d, |d|);
    var sel := all[..Min(k, |d|)];
    assert forall j :: 0 <= j < |d| && j !in sel ==> exists p :: Min(k, |d|) <= p < |d| && all[p] == j by {
      forall j | 0 <= j < |d| && j !in sel
        ensures exists p :: Min(k, |d|) <= p < |d| && all[p] == j
      {
        assert j in all;
        var p :| 0 <= p < |all| && all[p] == j;
        assert p >= Min(k, |d|);
      }
    }
    sel
  }

  /** What the selection promises, spelled out: `min(k, rows)` distinct rows of the table,
      listed by non-decreasing distance with the earlier row first among equals, each at most
      as far as every row left out and, when equally far, earlier in the table. */
  lemma NSmallestProperties(d: seq<int>, k: nat)
    ensures var sel := NSmallest(d, k);
            && |sel| == Min(k, |d|)
            && (forall t :: 0 <= t < |sel| ==> sel[t] < |d|)
            && (forall t, u :: 0 <= t < u < |sel| ==> sel[t] != sel[u])
            && (forall t, u :: 0 <= t < u < |sel| ==> d[sel[t]] <= d[sel[u]])
            && (forall t, u :: 0 <= t < u < |sel| && d[sel[t]] == d[sel[u]] ==> sel[t] < sel[u])
            && (forall t, j :: 0 <= t < |sel| && 0 <= j < |d| && j !in sel ==> d[sel[t]] <= d[j])
            && (forall t, j :: 0 <= t < |sel| && 0 <= j < |d| && j !in sel && d[sel[t]] == d[j]
                               ==> sel[t] < j)
  {
  }

  /** In a selection, the row at position `t` ranks before (or is) every row not among the
      first `t` selected. */
  lemma SelectionFirstOfRest(d: seq<int>, k: nat, sel: seq<nat>, t: nat, j: nat)
    requires IsSelection(d, k, sel)
    requires t < |sel| && j < |d| && j !in sel[..t]
    ensures j == sel[t] || Before(d, sel[t], j)
  {
    if j in sel {
      var u :| 0 <= u < |sel| && sel[u] == j;
      assert u >= t;
    }
  }

  lemma {:induction false} SelectionPrefix(d: seq<int>, k: nat, a: seq<nat>, b: seq<nat>, t: nat)
    requires IsSelection(d, k, a) && IsSelection(d, k, b)
    requires t <= |a|
    ensures a[..t] == b[..t]
  {
    if t > 0 {
      SelectionPrefix(d, k, a, b, t - 1);
      var s := t - 1;
      assert a[s] !in b[..s];
      assert b[s] !in a[..s];
      SelectionFirstOfRest(d, k, a, s, b[s]);
      SelectionFirstOfRest(d, k, b, s, a[s]);
      assert a[..t] == a[..s] + [a[s]];
      assert b[..t] == b[..s] + [b[s]];
    }
  }

  /** The selection is unique: any list of rows that has the properties `nsmallest` promises
      is the one `NSmallest` computes. */
  lemma SelectionUnique(d: seq<int>, k: nat, sel: seq<nat>)
    requires IsSelection(d, k, sel)
    ensures sel == NSmallest(d, k)
  {
    var r := NSmallest(d, k);
    SelectionPrefix(d, k, sel, r, |sel|);
    assert sel == sel[..|sel|] && r == r[..|r|];
  }
}
