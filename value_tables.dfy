/**
 * The vocabulary every value-iteration engine of the repository shares: a finite MDP read through
 * `states`, `actions(s)`, `transition(s, a)` and `reward(s, a)`, value tables keyed by state, the
 * Bellman backup with its `0` floor, the running maximum of absolute changes, and the index samples
 * `random.sample` draws.
 */
module ValueTables {

  /** An MDP as the engines consume it. States are enumerated in order; rewards depend on (state, action). */
  datatype Mdp<!S, !A> = Mdp(
    states: seq<S>,
    actions: S -> seq<A>,
    transition: (S, A) -> seq<(S, real)>,
    reward: (S, A) -> real)

  function Abs(x: real): (r: real)
    ensures r >= 0.0 && (r == x || r == -x)
  {
    if x < 0.0 then -x else x
  }

  function Max(x: real, y: real): (r: real)
    ensures r >= x && r >= y && (r == x || r == y)
  {
    if x < y then y else x
  }

  /** Every successor named in `succ` has an entry in `t` (otherwise the Python lookup raises KeyError). */
  predicate SuccessorsIn<S(==)>(succ: seq<(S, real)>, t: map<S, real>)
  {
    forall k :: 0 <= k < |succ| ==> succ[k].0 in t
  }

  /** Every action of `s` leads only to states that `t` holds. */
  predicate ActionsClosed<S(==), A(==)>(m: Mdp<S, A>, t: map<S, real>, s: S)
  {
    forall a :: a in m.actions(s) ==> SuccessorsIn(m.transition(s, a), t)
  }

  /** Sum of gamma·p·e·t[s'] over the successor list, accumulated left to right as the loops do. */
  function SuccSum<S(==)>(succ: seq<(S, real)>, gamma: real, e: real, t: map<S, real>): real
    requires SuccessorsIn(succ, t)
    decreases |succ|
  {
    if succ == [] then 0.0
    else
      var last := succ[|succ| - 1];
      SuccSum(succ[..|succ| - 1], gamma, e, t) + gamma * last.1 * e * t[last.0]
  }

  /** The sum is linear in the scaling factor `e`. */
  lemma {:induction false} SuccSumScales<S>(succ: seq<(S, real)>, gamma: real, e: real, t: map<S, real>)
    requires SuccessorsIn(succ, t)
    ensures SuccSum(succ, gamma, e, t) == e * SuccSum(succ, gamma, 1.0, t)
    decreases |succ|
  {
    if succ != [] {
      SuccSumScales(succ[..|succ| - 1], gamma, e, t);
    }
  }

  /** With non-negative probabilities, discount and values the sum is non-negative. */
  lemma {:induction false} SuccSumNonNegative<S>(succ: seq<(S, real)>, gamma: real, e: real, t: map<S, real>)
    requires SuccessorsIn(succ, t)
    requires gamma >= 0.0 && e >= 0.0
    requires forall k :: 0 <= k < |succ| ==> succ[k].1 >= 0.0 && t[succ[k].0] >= 0.0
    ensures SuccSum(succ, gamma, e, t) >= 0.0
    decreases |succ|
  {
    if succ != [] {
      var last := succ[|succ| - 1];
      SuccSumNonNegative(succ[..|succ| - 1], gamma, e, t);
      assert gamma * last.1 >= 0.0;
      assert gamma * last.1 * e >= 0.0;
    }
  }

  /** q(s, a) = reward(s, a) + Σ gamma·p·t[s'] over the successors of (s, a). */
  function Q<S(==), A(==)>(m: Mdp<S, A>, gamma: real, t: map<S, real>, s: S, a: A): real
    requires SuccessorsIn(m.transition(s, a), t)
  {
    m.reward(s, a) + SuccSum(m.transition(s, a), gamma, 1.0, t)
  }

  /**
   * The running maximum `max_val` of the loops: it starts at 0 and takes the maximum with the
   * q-value of each action of `acts` in turn.
   */
  function MaxQ<S(==), A(==)>(m: Mdp<S, A>, gamma: real, t: map<S, real>, s: S, acts: seq<A>): (r: real)
    requires forall a :: a in acts ==> SuccessorsIn(m.transition(s, a), t)
    ensures r >= 0.0
    ensures forall a :: a in acts ==> r >= Q(m, gamma, t, s, a)
    ensures r == 0.0 || exists a :: a in acts && r == Q(m, gamma, t, s, a)
    decreases |acts|
  {
    if acts == [] then 0.0
    else
      var prev := acts[..|acts| - 1];
      assert forall a :: a in acts ==> a in prev || a == acts[|acts| - 1];
      Max(MaxQ(m, gamma, t, s, prev), Q(m, gamma, t, s, acts[|acts| - 1]))
  }

  /** The Bellman backup of state `s` against table `t`: max(0, max over actions of q(s, a)). */
  function Backup<S(==), A(==)>(m: Mdp<S, A>, gamma: real, t: map<S, real>, s: S): real
    requires ActionsClosed(m, t, s)
  {
    MaxQ(m, gamma, t, s, m.actions(s))
  }

  /** A state with no actions backs up to 0, whatever its reward. */
  lemma BackupNoActions<S, A>(m: Mdp<S, A>, gamma: real, t: map<S, real>, s: S)
    requires m.actions(s) == []
    ensures Backup(m, gamma, t, s) == 0.0
  {
  }

  /**
   * `delta = max(delta, abs(old - new))` over the states of `ks`, starting from 0: the largest
   * absolute change between tables `a` and `b` on `ks`.
   */
  function MaxAbsDiff<S(==)>(ks: seq<S>, a: map<S, real>, b: map<S, real>): (r: real)
    requires forall k :: k in ks ==> k in a && k in b
    ensures r >= 0.0
    ensures forall k :: k in ks ==> r >= Abs(a[k] - b[k])
    ensures (ks == [] && r == 0.0) || exists k :: k in ks && r == Abs(a[k] - b[k])
    decreases |ks|
  {
    if ks == [] then 0.0
    else
      var prev := ks[..|ks| - 1];
      var last := ks[|ks| - 1];
      assert forall k :: k in ks ==> k in prev || k == last;
      var d := MaxAbsDiff(prev, a, b);
      assert prev == [] ==> d == 0.0;
      Max(d, Abs(a[last] - b[last]))
  }

  /** States on which the two tables agree contribute nothing: only changed states can set delta. */
  lemma MaxAbsDiffUnchanged<S>(ks: seq<S>, a: map<S, real>, b: map<S, real>, changed: seq<S>)
    requires forall k :: k in ks ==> k in a && k in b
    requires forall k :: k in ks && k !in changed ==> a[k] == b[k]
    ensures MaxAbsDiff(ks, a, b) == 0.0 || exists k :: k in ks && k in changed && MaxAbsDiff(ks, a, b) == Abs(a[k] - b[k])
  {
    var d := MaxAbsDiff(ks, a, b);
    if d != 0.0 {
      var k :| k in ks && d == Abs(a[k] - b[k]);
      assert k in changed;
    }
  }

  /** Extending a prefix of `ks` by one key adds that key's change to the maximum. */
  lemma MaxAbsDiffStep<S>(ks: seq<S>, n: nat, a: map<S, real>, b: map<S, real>)
    requires 0 < n <= |ks|
    requires forall k :: k in ks[..n] ==> k in a && k in b
    ensures forall k :: k in ks[..n - 1] ==> k in a && k in b
    ensures ks[n - 1] in a && ks[n - 1] in b
    ensures MaxAbsDiff(ks[..n], a, b) == Max(MaxAbsDiff(ks[..n - 1], a, b), Abs(a[ks[n - 1]] - b[ks[n - 1]]))
  {
    assert ks[..n][..n - 1] == ks[..n - 1];
    assert ks[..n][n - 1] == ks[n - 1];
    assert forall k :: k in ks[..n - 1] ==> k in ks[..n];
  }

  /**
   * One turn of a sweep that keeps a running maximum: if the entries of the earlier keys stay put
   * and the new key's change is folded in, the running maximum is still the largest change.
   */
  lemma MaxAbsDiffExtend<S>(ks: seq<S>, n: nat, a: map<S, real>, b: map<S, real>, b': map<S, real>, d: real, d': real)
    requires 0 < n <= |ks|
    requires forall k :: k in ks[..n] ==> k in a && k in b'
    requires forall k :: k in ks[..n - 1] ==> k in b && b[k] == b'[k]
    requires d == MaxAbsDiff(ks[..n - 1], a, b)
    requires d' == Max(d, Abs(a[ks[n - 1]] - b'[ks[n - 1]]))
    ensures d' == MaxAbsDiff(ks[..n], a, b')
  {
    MaxAbsDiffStep(ks, n, a, b');
    MaxAbsDiffAgree(ks[..n - 1], a, b, b');
  }

  /** Tables that agree on `ks` have the same largest change against `a` there. */
  lemma {:induction false} MaxAbsDiffAgree<S>(ks: seq<S>, a: map<S, real>, b: map<S, real>, c: map<S, real>)
    requires forall k :: k in ks ==> k in a && k in b && k in c && b[k] == c[k]
    ensures MaxAbsDiff(ks, a, b) == MaxAbsDiff(ks, a, c)
    decreases |ks|
  {
    if ks != [] {
      var prefix := ks[..|ks| - 1];
      assert forall x :: x in prefix ==> x in ks;
      MaxAbsDiffAgree(prefix, a, b, c);
    }
  }

  /** Python's int() on a float: truncation toward zero. */
  function Trunc(x: real): (r: int)
    ensures x >= 0.0 ==> r as real <= x < r as real + 1.0
    ensures x < 0.0 ==> r as real - 1.0 < x <= r as real
  {
    if x >= 0.0 then x.Floor else -((-x).Floor)
  }

  /** The sample size `int(sample_rate * len(states))`. */
  function SampleSize(rate: real, n: nat): int
  {
    Trunc(rate * n as real)
  }

  predicate DistinctIndices(d: seq<nat>)
  {
    forall i, j :: 0 <= i < j < |d| ==> d[i] != d[j]
  }

  /** What `random.sample(population, k)` may pick: k distinct positions of a population of size n. */
  predicate IsSample(d: seq<nat>, n: nat, k: nat)
  {
    |d| == k && DistinctIndices(d) && forall i :: 0 <= i < |d| ==> d[i] < n
  }

  /** The elements at the drawn positions, in draw order. */
  function Pick<S(==)>(xs: seq<S>, d: seq<nat>): (r: seq<S>)
    requires forall i :: 0 <= i < |d| ==> d[i] < |xs|
    ensures |r| == |d|
    ensures forall i :: 0 <= i < |d| ==> r[i] == xs[d[i]]
  {
    seq(|d|, i requires 0 <= i < |d| => xs[d[i]])
  }

  function Range(n: nat): (r: set<nat>)
    ensures forall i: nat :: i in r <==> i < n
    ensures |r| == n
    decreases n
  {
    if n == 0 then {} else
      var prev := Range(n - 1);
      assert n - 1 !in prev;
      prev + {n - 1}
  }

  function Elems(d: seq<nat>): (r: set<nat>)
    ensures forall i :: i in r <==> i in d
  {
    set i | i in d
  }

  lemma {:induction false} DistinctCard(d: seq<nat>)
    requires DistinctIndices(d)
    ensures |Elems(d)| == |d|
    decreases |d|
  {
    if d == [] {
      assert Elems(d) == {};
    } else {
      var prev, last := d[..|d| - 1], d[|d| - 1];
      assert DistinctIndices(prev);
      DistinctCard(prev);
      assert last !in prev by {
        forall k | 0 <= k < |prev| ensures prev[k] != last {
          assert d[k] != d[|d| - 1];
        }
      }
      assert Elems(d) == Elems(prev) + {last} by {
        assert d == prev + [last];
      }
    }
  }

  lemma SubsetCard(a: set<nat>, b: set<nat>)
    requires a <= b
    ensures |a| <= |b|
  {
    assert b == a + (b - a);
  }

  /** A sample of the whole population (`random.sample(states, k=len(states))`) draws every position. */
  lemma FullSampleCoversAll(d: seq<nat>, n: nat)
    requires IsSample(d, n, n)
    ensures forall j :: 0 <= j < n ==> j in d
  {
    DistinctCard(d);
    var drawn := Elems(d);
    forall j | 0 <= j < n ensures j in d {
      if j !in d {
        var rest := Range(n) - {j};
        assert |rest| == n - 1 by { assert Range(n) == rest + {j}; }
        assert drawn <= rest;
        SubsetCard(drawn, rest);
        assert false;
      }
    }
  }

  /** Hence such a sample visits every state exactly as often as a full sweep would, in another order. */
  lemma FullSamplePermutes<S>(xs: seq<S>, d: seq<nat>)
    requires IsSample(d, |xs|, |xs|)
    ensures |Pick(xs, d)| == |xs|
    ensures forall s :: s in xs <==> s in Pick(xs, d)
    ensures multiset(Pick(xs, d)) == multiset(xs)
  {
    FullSampleMultiset(xs, d);
    FullSampleCoversAll(d, |xs|);
    var r := Pick(xs, d);
    forall s | s in xs ensures s in r {
      var j :| 0 <= j < |xs| && xs[j] == s;
      assert j in d;
      var i :| 0 <= i < |d| && d[i] == j;
      assert r[i] == s;
    }
  }

  /** Picking the positions of a concatenation picks each part in turn. */
  lemma PickAppend<S>(xs: seq<S>, a: seq<nat>, b: seq<nat>)
    requires forall i :: 0 <= i < |a| ==> a[i] < |xs|
    requires forall i :: 0 <= i < |b| ==> b[i] < |xs|
    ensures forall i :: 0 <= i < |a + b| ==> (a + b)[i] < |xs|
    ensures Pick(xs, a + b) == Pick(xs, a) + Pick(xs, b)
  {
    assert forall i :: 0 <= i < |a + b| ==> (a + b)[i] == if i < |a| then a[i] else b[i - |a|];
  }

  /** Striking the draw of the last position from a full sample leaves a full sample of the positions before it. */
  lemma DropLast(d: seq<nat>, n: nat, p: nat)
    requires IsSample(d, n + 1, n + 1) && p < |d| && d[p] == n
    ensures IsSample(d[..p] + d[p + 1..], n, n)
  {
    var e := d[..p] + d[p + 1..];
    assert forall i :: 0 <= i < |e| ==> e[i] == if i < p then d[i] else d[i + 1];
    forall i | 0 <= i < |e| ensures e[i] < n {
      if i < p { assert d[i] != d[p]; } else { assert d[i + 1] != d[p]; }
    }
    forall i, j | 0 <= i < j < |e| ensures e[i] != e[j] {
      var i', j' := if i < p then i else i + 1, if j < p then j else j + 1;
      assert i' < j' && e[i] == d[i'] && e[j] == d[j'];
    }
  }

  /** Picking around the `p`-th draw: the picks before it, its element, and the picks after it. */
  lemma PickSplit<S>(xs: seq<S>, d: seq<nat>, p: nat)
    requires forall i :: 0 <= i < |d| ==> d[i] < |xs|
    requires p < |d|
    ensures Pick(xs, d) == Pick(xs, d[..p]) + [xs[d[p]]] + Pick(xs, d[p + 1..])
  {
    var a, b := Pick(xs, d[..p]), Pick(xs, d[p + 1..]);
    var r := a + [xs[d[p]]] + b;
    assert |a| == p && |b| == |d| - p - 1;
    forall i | 0 <= i < |d| ensures r[i] == xs[d[i]] {
      if i < p {
        assert r[i] == a[i];
      } else if i == p {
        assert r[i] == xs[d[p]];
      } else {
        assert r[i] == b[i - p - 1];
      }
    }
  }

  /** A full sample draws the last position somewhere. */
  lemma DrawnAt(d: seq<nat>, n: nat) returns (p: nat)
    requires IsSample(d, n + 1, n + 1)
    ensures p < |d| && d[p] == n
  {
    FullSampleCoversAll(d, n + 1);
    assert n in d;
    var j :| 0 <= j < |d| && d[j] == n;
    p := j;
  }

  /** Striking the draw of the last position takes the last element out of the picks. */
  lemma PickDropLast<S>(xs: seq<S>, d: seq<nat>, p: nat)
    requires xs != [] && p < |d| && d[p] == |xs| - 1
    requires forall i :: 0 <= i < |d| ==> d[i] < |xs|
    requires var e := d[..p] + d[p + 1..]; forall i :: 0 <= i < |e| ==> e[i] < |xs| - 1
    ensures multiset(Pick(xs, d)) == multiset(Pick(xs[..|xs| - 1], d[..p] + d[p + 1..])) + multiset{xs[|xs| - 1]}
  {
    var e := d[..p] + d[p + 1..];
    var a, b := Pick(xs, d[..p]), Pick(xs, d[p + 1..]);
    assert Pick(xs, e) == Pick(xs[..|xs| - 1], e);
    PickSplit(xs, d, p);
    PickAppend(xs, d[..p], d[p + 1..]);
    assert multiset(a + [xs[|xs| - 1]] + b) == multiset(a + b) + multiset{xs[|xs| - 1]};
  }

  /** A full sample is a permutation of the positions, so it picks every element as often as it occurs. */
  lemma {:induction false} FullSampleMultiset<S>(xs: seq<S>, d: seq<nat>)
    requires IsSample(d, |xs|, |xs|)
    ensures multiset(Pick(xs, d)) == multiset(xs)
    decreases |xs|
  {
    if xs != [] {
      var n := |xs| - 1;
      var p := DrawnAt(d, n);
      DropLast(d, n, p);
      FullSampleMultiset(xs[..n], d[..p] + d[p + 1..]);
      PickDropLast(xs, d, p);
      assert xs == xs[..n] + [xs[n]];
    }
  }
}
