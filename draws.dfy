/**
 * The random draws of the scripts as index sequences supplied from outside:
 * np.random.choice(n, k, replace=...) and random.sample(population, k)
 * return k positions below n, distinct when drawn without replacement;
 * a[idx] gathers the rows at those positions.
 */
module Draws {

  /** Every index of `idx` addresses one of `n` rows. */
  predicate InRange(idx: seq<nat>, n: nat) {
    forall k :: 0 <= k < |idx| ==> idx[k] < n
  }

  /** No index is drawn twice (np.random.choice with replace=False). */
  predicate Distinct(idx: seq<nat>) {
    forall k, l :: 0 <= k < l < |idx| ==> idx[k] != idx[l]
  }

  /** c[idx]: the rows of `c` at the given positions, in draw order. */
  function Gather<T>(c: seq<T>, idx: seq<nat>): seq<T>
    requires InRange(idx, |c|)
  {
    seq(|idx|, k requires 0 <= k < |idx| => c[idx[k]])
  }

  /** Positions that stay below |c'| read the same rows from `c'` as from its extension `c`. */
  lemma GatherPrefix<T>(c: seq<T>, c': seq<T>, idx: seq<nat>)
    requires |c'| <= |c| && c' == c[..|c'|] && InRange(idx, |c'|)
    ensures InRange(idx, |c|) && Gather(c, idx) == Gather(c', idx)
  {
  }

  /**
   * Gathering at distinct positions never uses a row more often than it
   * occurs: the result is a sub-multiset of the source.
   */
  lemma {:induction false} GatherDistinct<T>(c: seq<T>, idx: seq<nat>)
    requires InRange(idx, |c|) && Distinct(idx)
    ensures multiset(Gather(c, idx)) <= multiset(c)
    decreases |c|
  {
    if c != [] {
      var m := |c| - 1;
      var c' := c[..m];
      assert c == c' + [c[m]];
      if t :| 0 <= t < |idx| && idx[t] == m {
        DropDistinct(idx, t, m);
        GatherDistinct(c', idx[..t] + idx[t + 1..]);
        GatherDropLast(c, idx, t);
      } else {
        assert InRange(idx, m);
        GatherDistinct(c', idx);
        GatherPrefix(c, c', idx);
      }
    }
  }

  /**
   * When position t holds the last row's index, the gathered rows are the
   * last row plus what the other positions gather from the shorter source.
   */
  lemma GatherDropLast<T>(c: seq<T>, idx: seq<nat>, t: nat)
    requires c != [] && t < |idx| && idx[t] == |c| - 1
    requires InRange(idx, |c|) && InRange(idx[..t] + idx[t + 1..], |c| - 1)
    ensures multiset(Gather(c, idx))
         == multiset(Gather(c[..|c| - 1], idx[..t] + idx[t + 1..])) + multiset{c[|c| - 1]}
  {
    var m := |c| - 1;
    var rest := idx[..t] + idx[t + 1..];
    var g := Gather(c[..m], rest);
    var r := g[..t] + [c[m]] + g[t..];
    forall k | 0 <= k < |idx| ensures Gather(c, idx)[k] == r[k] {
      if k < t {
        assert rest[k] == idx[k];
      } else if k > t {
        assert rest[k - 1] == idx[k];
      }
    }
    assert Gather(c, idx) == r;
    assert g == g[..t] + g[t..];
  }

  /** Removing the one occurrence of position `m` leaves distinct positions below `m`. */
  lemma DropDistinct(idx: seq<nat>, t: nat, m: nat)
    requires t < |idx| && idx[t] == m
    requires InRange(idx, m + 1) && Distinct(idx)
    ensures InRange(idx[..t] + idx[t + 1..], m) && Distinct(idx[..t] + idx[t + 1..])
  {
    var rest := idx[..t] + idx[t + 1..];
    assert forall k :: 0 <= k < |rest| ==> rest[k] == (if k < t then idx[k] else idx[k + 1]);
  }

  /** A sub-multiset of the same size is the whole multiset. */
  lemma SubMultisetOfSameSize<T>(a: seq<T>, b: seq<T>)
    requires multiset(a) <= multiset(b) && |a| == |b|
    ensures multiset(a) == multiset(b)
  {
    var d := multiset(b) - multiset(a);
    assert multiset(b) == multiset(a) + d;
    assert |d| == 0;
  }
}
