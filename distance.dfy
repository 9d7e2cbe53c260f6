/** The per-row distance of meta.py:90: `sum(abs(a - b) for a, b in zip(query, stored))`,
    over Python's unbounded integers. */
module ProfileDistance {
  import opened Numbers

  /** Python's `zip(p, q)`: the pairs of equally placed components, stopping at the end of
      the shorter sequence. */
  function Zip(p: seq<int>, q: seq<int>): (z: seq<(int, int)>)
    ensures |z| == Min(|p|, |q|)
    ensures forall i :: 0 <= i < |z| ==> z[i] == (p[i], q[i])
  {
    if p == [] || q == [] then [] else [(p[0], q[0])] + Zip(p[1..], q[1..])
  }

  /** `sum(abs(a - b) for a, b in pairs)`. */
  function SumAbsDiff(pairs: seq<(int, int)>): (s: int)
    ensures s >= 0
  {
    if pairs == [] then 0 else Abs(pairs[0].0 - pairs[0].1) + SumAbsDiff(pairs[1..])
  }

  /** The L1 (Manhattan) distance between the query profile and a stored profile; never
      negative. */
  function Distance(p: seq<int>, q: seq<int>): (d: int)
    ensures d >= 0
  {
    SumAbsDiff(Zip(p, q))
  }

  /** Only the paired components count: the components beyond the shorter vector's length
      are ignored, so a longer stored profile and a truncated copy are at the same distance. */
  lemma DistanceTruncates(p: seq<int>, q: seq<int>)
    ensures var m := Min(|p|, |q|); Distance(p, q) == Distance(p[..m], q[..m])
  {
    var m := Min(|p|, |q|);
    assert Zip(p, q) == Zip(p[..m], q[..m]);
  }

  lemma {:induction false} SumAbsDiffZero(pairs: seq<(int, int)>)
    ensures SumAbsDiff(pairs) == 0 <==> forall i :: 0 <= i < |pairs| ==> pairs[i].0 == pairs[i].1
  {
    if pairs != [] {
      SumAbsDiffZero(pairs[1..]);
      assert forall i :: 1 <= i < |pairs| ==> pairs[i] == pairs[1..][i - 1];
    }
  }

  /** The distance is zero exactly when the two vectors agree on every paired component. */
  lemma DistanceZeroIff(p: seq<int>, q: seq<int>)
    ensures var m := Min(|p|, |q|); Distance(p, q) == 0 <==> p[..m] == q[..m]
  {
    var m := Min(|p|, |q|);
    var z := Zip(p, q);
    SumAbsDiffZero(z);
    if Distance(p, q) == 0 {
      assert forall i :: 0 <= i < m ==> p[..m][i] == z[i].0 == z[i].1 == q[..m][i];
    }
  }

  /** A profile is at distance zero from itself. */
  lemma DistanceSelf(p: seq<int>)
    ensures Distance(p, p) == 0
  {
    DistanceZeroIff(p, p);
  }

  /** The distance does not depend on which vector is the query. */
  lemma {:induction false} DistanceSymmetric(p: seq<int>, q: seq<int>)
    ensures Distance(p, q) == Distance(q, p)
  {
    if p != [] && q != [] {
      DistanceSymmetric(p[1..], q[1..]);
    }
  }

  /** Adding one more pair of components adds its absolute difference. */
  lemma {:induction false} DistanceSnoc(p: seq<int>, q: seq<int>, a: int, b: int)
    requires |p| == |q|
    ensures Distance(p + [a], q + [b]) == Distance(p, q) + Abs(a - b)
  {
    if p == [] {
      assert [] + [a] == [a] && [] + [b] == [b];
    } else {
      assert (p + [a])[1..] == p[1..] + [a];
      assert (q + [b])[1..] == q[1..] + [b];
      DistanceSnoc(p[1..], q[1..], a, b);
    }
  }

  /** The vector of `n` copies of `x`. */
  function Constant(n: nat, x: int): (v: seq<int>)
    ensures |v| == n && forall i :: 0 <= i < n ==> v[i] == x
  {
    if n == 0 then [] else [x] + Constant(n - 1, x)
  }

  /** Two constant vectors of length `n` are `n * |x - y|` apart. */
  lemma {:induction false} DistanceConstant(n: nat, x: int, y: int)
    ensures Distance(Constant(n, x), Constant(n, y)) == n * Abs(x - y)
  {
    if n > 0 {
      DistanceConstant(n - 1, x, y);
    }
  }
}
