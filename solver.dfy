/**
 * The current engine (solver.py): one `ValueIterator.iterate` sweep of Bellman backups with its
 * five sweep disciplines, the win counters kept for `EmpiricalVI`, and the `Solver.solve`
 * convergence loop.
 */
module Solver {
  import opened Wrappers
  import opened Text
  import opened ValueTables

  /** Whether a sweep writes to a copy of the table (`AFTER_SWEEP`) or to the live table (`DURING_SWEEP`). */
  datatype UpdateRule = DuringSweep | AfterSweep

  /** The five `ValueIterator` subclasses; `RandomVI` carries its sample size `k`. */
  datatype Iterator = ClassicVI | RandomVI(k: int) | EmpiricalVI | CyclicVI | RandomCyclicVI {

    /** The `update_rule` property of each subclass. */
    function Rule(): (r: UpdateRule)
      ensures r == AfterSweep <==> (ClassicVI? || RandomVI? || EmpiricalVI?)
    {
      match this
      case ClassicVI => AfterSweep
      case RandomVI(_) => AfterSweep
      case EmpiricalVI => AfterSweep
      case CyclicVI => DuringSweep
      case RandomCyclicVI => DuringSweep
    }

    /** The `name` property: the class name, and for `RandomVI` also its `k`. */
    function Name(): string
    {
      match this
      case ClassicVI => "ClassicVI"
      case RandomVI(k) => "RandomVI (k=" + IntToString(k) + ")"
      case EmpiricalVI => "EmpiricalVI"
      case CyclicVI => "CyclicVI"
      case RandomCyclicVI => "RandomCyclicVI"
    }
  }

  /** Distinct iterators have distinct display names, so a plot legend identifies the run. */
  lemma NameInjective(v: Iterator, w: Iterator)
    requires v != w
    ensures v.Name() != w.Name()
  {
    if v.RandomVI? && w.RandomVI? {
      forall i, j | IntToString(i) == IntToString(j)
        ensures i == j
      {
        IntToStringInjective(i, j);
      }
      var prefix := "RandomVI (k=";
      assert v.Name()[|prefix|..|v.Name()| - 1] == IntToString(v.k);
      assert w.Name()[|prefix|..|w.Name()| - 1] == IntToString(w.k);
    } else if v.RandomVI? || w.RandomVI? {
      var r := if v.RandomVI? then v else w;
      assert |r.Name()| >= 14 && r.Name()[6] == 'V';
    }
  }

  /** Errors that end a solve call: the failed assertion, `random.sample`'s ValueError,
      `max()` of an empty list, and the model's own fuel bound on threshold mode. */
  datatype SolveError = InvalidConfig | SampleTooLarge | EmptyStates | FuelExhausted

  /** What `random.sample` may return on a sweep of iterator `v` over `n` states. */
  predicate DrawFits(v: Iterator, n: nat, draw: seq<nat>)
  {
    match v
    case RandomVI(k) => 0 <= k <= n ==> IsSample(draw, n, k)
    case RandomCyclicVI => IsSample(draw, n, n)
    case _ => true
  }

  /** `get_states`: every state for the deterministic iterators, `random.sample(states, k)` for
      `RandomVI` (a ValueError when k is negative or larger than the population) and a random
      permutation for `RandomCyclicVI`. */
  function GetStates<S(==,!new)>(v: Iterator, states: seq<S>, draw: seq<nat>): (r: Result<seq<S>, SolveError>)
    requires DrawFits(v, |states|, draw)
    ensures r.Err? <==> v.RandomVI? && (v.k < 0 || v.k > |states|)
    ensures r.Err? ==> r.error == SampleTooLarge
    ensures r.Ok? ==> forall s :: s in r.value ==> s in states
    ensures r.Ok? && (v.ClassicVI? || v.EmpiricalVI? || v.CyclicVI?) ==> r.value == states
    ensures r.Ok? && v.RandomVI? ==> |r.value| == v.k
    ensures r.Ok? && v.RandomCyclicVI? ==> |r.value| == |states| && forall s :: s in states ==> s in r.value
  {
    match v
    case RandomVI(k) => if k < 0 || k > |states| then Err(SampleTooLarge) else Ok(Pick(states, draw))
    case RandomCyclicVI => FullSamplePermutes(states, draw); Ok(Pick(states, draw))
    case _ => Ok(states)
  }

  // ---------------------------------------------------------------------------------------------
  // Win counters: `counters = defaultdict(Counter)`, one insertion-ordered counter per state.

  /** A `Counter` of actions: its keys in insertion order and their counts. */
  datatype Counter<A> = Counter(keys: seq<A>, counts: map<A, nat>)

  function EmptyCounter<A(!new)>(): Counter<A> { Counter([], map[]) }

  /** Counters built only by `+= 1` have distinct keys, exactly the counted ones, each at least 1. */
  predicate ValidCounter<A(==,!new)>(c: Counter<A>)
  {
    && (forall i, j :: 0 <= i < j < |c.keys| ==> c.keys[i] != c.keys[j])
    && (forall a :: a in c.counts ==> a in c.keys)
    && (forall i :: 0 <= i < |c.keys| ==> c.keys[i] in c.counts)
    && (forall a :: a in c.counts ==> c.counts[a] >= 1)
  }

  /** `counter[a]`: a missing action counts 0. */
  function Count<A(==,!new)>(c: Counter<A>, a: A): nat
  {
    if a in c.counts then c.counts[a] else 0
  }

  /** `counter[a] += 1`: a new action is appended to the key order. */
  function Increment<A(==,!new)>(c: Counter<A>, a: A): (r: Counter<A>)
    requires ValidCounter(c)
    ensures ValidCounter(r)
    ensures Count(r, a) == Count(c, a) + 1
    ensures forall b :: b != a ==> Count(r, b) == Count(c, b)
    ensures a in c.counts ==> r.keys == c.keys
    ensures a !in c.counts ==> r.keys == c.keys + [a]
  {
    if a in c.counts then Counter(c.keys, c.counts[a := c.counts[a] + 1])
    else Counter(c.keys + [a], c.counts[a := 1])
  }

  /** `counters[s]` of the defaultdict: a state never counted has an empty counter. */
  function CounterAt<S(==,!new), A(!new)>(counters: map<S, Counter<A>>, s: S): Counter<A>
  {
    if s in counters then counters[s] else EmptyCounter()
  }

  /** The counters after state `s`'s counter became `c`; an untouched state gets no entry. */
  function Store<S(==,!new), A(==,!new)>(counters: map<S, Counter<A>>, s: S, c: Counter<A>): (r: map<S, Counter<A>>)
    ensures CounterAt(r, s) == c
    ensures forall t :: t != s ==> CounterAt(r, t) == CounterAt(counters, t)
  {
    if s in counters || c != EmptyCounter() then counters[s := c] else counters
  }

  lemma StoreAgain<S(!new), A(!new)>(counters: map<S, Counter<A>>, cs: map<S, Counter<A>>, s: S, c: Counter<A>, c2: Counter<A>)
    requires cs == Store(counters, s, c)
    requires ValidCounter(c2) && c2.keys != []
    ensures cs[s := c2] == Store(counters, s, c2)
  {
  }

  predicate AllValid<S(!new), A(==,!new)>(counters: map<S, Counter<A>>)
  {
    forall s :: s in counters ==> ValidCounter(counters[s])
  }

  lemma ValidAt<S(!new), A(!new)>(counters: map<S, Counter<A>>, s: S)
    requires AllValid(counters)
    ensures ValidCounter(CounterAt(counters, s))
  {
  }

  lemma StoreValid<S(!new), A(!new)>(counters: map<S, Counter<A>>, s: S, c: Counter<A>)
    requires AllValid(counters) && ValidCounter(c)
    ensures AllValid(Store(counters, s, c))
  {
    var r := Store(counters, s, c);
    forall t | t in r
      ensures ValidCounter(r[t])
    {
      if t != s {
        assert t in counters && r[t] == counters[t];
      }
    }
  }

  /** The sum of the counts of `ks`, accumulated left to right. */
  function SumCounts<A(==,!new)>(c: Counter<A>, ks: seq<A>): nat
    decreases |ks|
  {
    if ks == [] then 0 else SumCounts(c, ks[..|ks| - 1]) + Count(c, ks[|ks| - 1])
  }

  lemma {:induction false} SumCountsAtLeast<A(!new)>(c: Counter<A>, ks: seq<A>, a: A)
    requires a in ks
    ensures SumCounts(c, ks) >= Count(c, a)
    decreases |ks|
  {
    var prev := ks[..|ks| - 1];
    if ks[|ks| - 1] != a {
      assert a in prev;
      SumCountsAtLeast(c, prev, a);
    }
  }

  /** A positive count over a total at least as large is a probability in (0, 1]. */
  lemma RatioInUnit(count: nat, total: nat)
    requires 0 < count <= total
    ensures 0.0 < count as real / total as real <= 1.0
  {
    var q := count as real / total as real;
    assert q * total as real == count as real;
  }

  /**
   * `get_empirical_prob`. The base class answers 1. `EmpiricalVI` answers 1 for a state without
   * history and otherwise `counter[action] / total`, where the loop `for (action, count) in
   * counter.items()` has rebound `action` to the LAST key: the argument action plays no part.
   */
  function EmpiricalProbOf<A(==,!new)>(v: Iterator, c: Counter<A>): (r: real)
    requires ValidCounter(c)
    ensures 0.0 < r <= 1.0
    ensures !v.EmpiricalVI? || c.keys == [] ==> r == 1.0
  {
    if !v.EmpiricalVI? || c.keys == [] then 1.0
    else
      var last := c.keys[|c.keys| - 1];
      SumCountsAtLeast(c, c.keys, last);
      assert last in c.counts;
      RatioInUnit(Count(c, last), SumCounts(c, c.keys));
      Count(c, last) as real / SumCounts(c, c.keys) as real
  }

  /** The loop of `EmpiricalVI.get_empirical_prob` (and the base class's constant). */
  method EmpiricalProb<S(==,!new), A(==,!new)>(v: Iterator, counters: map<S, Counter<A>>, state: S, action: A) returns (r: real)
    requires ValidCounter(CounterAt(counters, state))
    ensures r == EmpiricalProbOf(v, CounterAt(counters, state))
  {
    if !v.EmpiricalVI? {
      return 1.0;
    }
    var counter := CounterAt(counters, state);
    if counter.keys == [] {
      return 1.0;
    }
    // `key` stands for the loop variable that shadows the `action` argument.
    var key := counter.keys[0];
    var total := 0;
    var i := 0;
    while i < |counter.keys|
      invariant 0 <= i <= |counter.keys|
      invariant total == SumCounts(counter, counter.keys[..i])
      invariant i > 0 ==> key == counter.keys[i - 1]
    {
      assert counter.keys[..i + 1][..i] == counter.keys[..i];
      key := counter.keys[i];
      total := total + counter.counts[key];
      i := i + 1;
    }
    assert counter.keys[..i] == counter.keys;
    r := Count(counter, key) as real / total as real;
  }

  // ---------------------------------------------------------------------------------------------
  // One state's backup: the loop over its actions.

  /** The costs computed so far, the running `max_cost`, and the state's counter. */
  datatype Scan<A> = Scan(costs: seq<real>, maxCost: real, counter: Counter<A>)

  /** `state_action_cost`: reward plus Σ gamma·p·empirical_prob·V[s'] under the current counter. */
  function ActionCost<S(==,!new), A(==,!new)>(m: Mdp<S, A>, gamma: real, v: Iterator, read: map<S, real>, s: S, a: A, c: Counter<A>): real
    requires ValidCounter(c) && SuccessorsIn(m.transition(s, a), read)
  {
    m.reward(s, a) + SuccSum(m.transition(s, a), gamma, EmpiricalProbOf(v, c), read)
  }

  /**
   * One action of the loop: append its cost, take the new maximum, and count a win for `a` when the
   * new maximum equals its cost.
   */
  function ScanNext<A(==,!new)>(prev: Scan<A>, a: A, cost: real): (r: Scan<A>)
    requires ValidCounter(prev.counter)
    ensures r.costs == prev.costs + [cost]
    ensures r.maxCost >= prev.maxCost && r.maxCost >= cost
    ensures r.maxCost == prev.maxCost || r.maxCost == cost
    ensures ValidCounter(r.counter)
  {
    var mx := Max(prev.maxCost, cost);
    Scan(prev.costs + [cost], mx, if mx == cost then Increment(prev.counter, a) else prev.counter)
  }

  /** One more action keeps `max_cost` the floored maximum of the costs so far. */
  lemma ScanNextKeepsMax<A(!new)>(prev: Scan<A>, a: A, cost: real)
    requires ValidCounter(prev.counter) && prev.maxCost >= 0.0
    requires forall k :: 0 <= k < |prev.costs| ==> prev.maxCost >= prev.costs[k]
    requires prev.maxCost == 0.0 || exists k :: 0 <= k < |prev.costs| && prev.maxCost == prev.costs[k]
    ensures var r := ScanNext(prev, a, cost);
      && r.maxCost >= 0.0
      && (forall k :: 0 <= k < |r.costs| ==> r.maxCost >= r.costs[k])
      && (r.maxCost == 0.0 || exists k :: 0 <= k < |r.costs| && r.maxCost == r.costs[k])
  {
    var r := ScanNext(prev, a, cost);
    var n := |prev.costs|;
    assert r.costs[n] == cost;
    assert forall k :: 0 <= k < n ==> r.costs[k] == prev.costs[k];
    if r.maxCost != 0.0 && r.maxCost == prev.maxCost && r.maxCost != cost {
      var k :| 0 <= k < n && prev.maxCost == prev.costs[k];
      assert r.costs[k] == r.maxCost;
    }
  }

  /**
   * The action loop of `iterate` on `acts`, in order: each cost is appended to `costs`,
   * `max_cost` starts at 0 and takes the maximum, and `counters[state][action] += 1` whenever the
   * new maximum equals this action's cost (that is, whenever the cost is at least the old maximum).
   */
  function ScanActions<S(==,!new), A(==,!new)>(m: Mdp<S, A>, gamma: real, v: Iterator, read: map<S, real>, s: S, acts: seq<A>, c0: Counter<A>): (r: Scan<A>)
    requires ValidCounter(c0)
    requires forall a :: a in acts ==> SuccessorsIn(m.transition(s, a), read)
    ensures |r.costs| == |acts|
    ensures r.maxCost >= 0.0
    ensures forall k :: 0 <= k < |acts| ==> r.maxCost >= r.costs[k]
    ensures r.maxCost == 0.0 || exists k :: 0 <= k < |acts| && r.maxCost == r.costs[k]
    ensures ValidCounter(r.counter)
    decreases |acts|
  {
    if acts == [] then Scan([], 0.0, c0)
    else
      var prefix := acts[..|acts| - 1];
      var a := acts[|acts| - 1];
      assert forall b :: b in prefix ==> b in acts;
      var prev := ScanActions(m, gamma, v, read, s, prefix, c0);
      var cost := ActionCost(m, gamma, v, read, s, a, prev.counter);
      ScanNextKeepsMax(prev, a, cost);
      ScanNext(prev, a, cost)
  }

  /**
   * One more action gives `a` one more win exactly when its cost is at least the running
   * `max_cost` (the new maximum then equals it), and leaves every other count alone.
   */
  lemma ScanNextCounts<A(!new)>(prev: Scan<A>, a: A, cost: real)
    requires ValidCounter(prev.counter)
    ensures var c := ScanNext(prev, a, cost).counter;
      Count(c, a) == Count(prev.counter, a) + (if cost >= prev.maxCost then 1 else 0)
    ensures var c := ScanNext(prev, a, cost).counter;
      forall b :: Count(c, b) >= Count(prev.counter, b) && (b != a ==> Count(c, b) == Count(prev.counter, b))
  {
  }

  /** Win counts never decrease, and only the scanned actions gain wins. */
  lemma {:induction false} ScanCountsGrow<S(!new), A(!new)>(m: Mdp<S, A>, gamma: real, v: Iterator, read: map<S, real>, s: S, acts: seq<A>, c0: Counter<A>)
    requires ValidCounter(c0)
    requires forall a :: a in acts ==> SuccessorsIn(m.transition(s, a), read)
    ensures var c := ScanActions(m, gamma, v, read, s, acts, c0).counter;
      (forall b :: Count(c, b) >= Count(c0, b)) && (forall b :: b !in acts ==> Count(c, b) == Count(c0, b))
    decreases |acts|
  {
    if acts != [] {
      var prefix := acts[..|acts| - 1];
      assert forall b :: b in prefix ==> b in acts;
      assert forall b :: b !in acts ==> b !in prefix && b != acts[|acts| - 1];
      ScanCountsGrow(m, gamma, v, read, s, prefix, c0);
      var prev := ScanActions(m, gamma, v, read, s, prefix, c0);
      ScanNextCounts(prev, acts[|acts| - 1], ActionCost(m, gamma, v, read, s, acts[|acts| - 1], prev.counter));
    }
  }

  /** `max(costs, default=(0, ...))[0]`: the largest cost, with no 0 floor; 0 when there is none. */
  function Best(costs: seq<real>): (r: real)
    ensures costs == [] ==> r == 0.0
    ensures costs != [] ==> (exists k :: 0 <= k < |costs| && r == costs[k]) && forall k :: 0 <= k < |costs| ==> r >= costs[k]
    decreases |costs|
  {
    if |costs| <= 1 then (if costs == [] then 0.0 else costs[0])
    else Max(Best(costs[..|costs| - 1]), costs[|costs| - 1])
  }

  /** `filter(lambda x: x[0] == top, costs)` projected to actions, in action order. */
  function Filter<A(!new)>(costs: seq<real>, acts: seq<A>, top: real): (r: seq<A>)
    requires |costs| == |acts|
    ensures forall a :: a in r <==> exists k :: 0 <= k < |acts| && acts[k] == a && costs[k] == top
    decreases |acts|
  {
    if acts == [] then []
    else
      var n := |acts| - 1;
      var prev := Filter(costs[..n], acts[..n], top);
      if costs[n] == top then prev + [acts[n]] else prev
  }

  /** `A[state]`: every action whose cost equals the largest cost (ties kept), in action order. */
  function Ties<A(!new)>(costs: seq<real>, acts: seq<A>): seq<A>
    requires |costs| == |acts|
  {
    Filter(costs, acts, Best(costs))
  }

  /** The policy entry holds exactly the maximising actions, and is empty only for a state without actions. */
  lemma TiesAreMaximal<A(!new)>(costs: seq<real>, acts: seq<A>)
    requires |costs| == |acts|
    ensures forall a :: a in Ties(costs, acts) <==>
      exists k :: 0 <= k < |acts| && acts[k] == a && forall j :: 0 <= j < |acts| ==> costs[k] >= costs[j]
    ensures Ties(costs, acts) == [] <==> acts == []
  {
    var top := Best(costs);
    forall a ensures a in Ties(costs, acts) <==>
      exists k :: 0 <= k < |acts| && acts[k] == a && forall j :: 0 <= j < |acts| ==> costs[k] >= costs[j]
    {
      if exists k :: 0 <= k < |acts| && acts[k] == a && forall j :: 0 <= j < |acts| ==> costs[k] >= costs[j] {
        var k :| 0 <= k < |acts| && acts[k] == a && forall j :: 0 <= j < |acts| ==> costs[k] >= costs[j];
        var i :| 0 <= i < |costs| && top == costs[i];
        assert costs[k] >= costs[i] && top >= costs[k];
      }
    }
    if acts != [] {
      var i :| 0 <= i < |costs| && top == costs[i];
      assert acts[i] in Ties(costs, acts);
    }
  }

  /** The scan of a longer action list extends the scan of its prefix. */
  lemma ScanExtends<S(!new), A(!new)>(m: Mdp<S, A>, gamma: real, v: Iterator, read: map<S, real>, s: S, acts: seq<A>, c0: Counter<A>)
    requires ValidCounter(c0) && acts != []
    requires forall a :: a in acts ==> SuccessorsIn(m.transition(s, a), read)
    ensures var n := |acts| - 1;
      forall a :: a in acts[..n] ==> SuccessorsIn(m.transition(s, a), read)
    ensures var n := |acts| - 1;
      var prev := ScanActions(m, gamma, v, read, s, acts[..n], c0);
      var r := ScanActions(m, gamma, v, read, s, acts, c0);
      && r.costs == prev.costs + [ActionCost(m, gamma, v, read, s, acts[n], prev.counter)]
      && r.maxCost == Max(prev.maxCost, r.costs[n])
  {
    assert forall b :: b in acts[..|acts| - 1] ==> b in acts;
  }

  /** One more action: the scan of the first j + 1 actions is the scan of the first j and one step. */
  lemma ScanStep<S(!new), A(!new)>(m: Mdp<S, A>, gamma: real, v: Iterator, read: map<S, real>, s: S, acts: seq<A>, c0: Counter<A>, j: nat)
    requires ValidCounter(c0) && j < |acts|
    requires forall a :: a in acts ==> SuccessorsIn(m.transition(s, a), read)
    ensures forall a :: a in acts[..j] ==> SuccessorsIn(m.transition(s, a), read)
    ensures forall a :: a in acts[..j + 1] ==> SuccessorsIn(m.transition(s, a), read)
    ensures SuccessorsIn(m.transition(s, acts[j]), read)
    ensures var prev := ScanActions(m, gamma, v, read, s, acts[..j], c0);
      ScanActions(m, gamma, v, read, s, acts[..j + 1], c0)
        == ScanNext(prev, acts[j], ActionCost(m, gamma, v, read, s, acts[j], prev.counter))
  {
    assert acts[j] in acts;
    assert forall b :: b in acts[..j] ==> b in acts;
    assert forall b :: b in acts[..j + 1] ==> b in acts;
    assert acts[..j + 1][..j] == acts[..j];
  }

  /** Outside `EmpiricalVI` each cost of the scan is the Bellman q-value of its action. */
  lemma {:induction false} ScanCostsAreQ<S(!new), A(!new)>(m: Mdp<S, A>, gamma: real, v: Iterator, read: map<S, real>, s: S, acts: seq<A>, c0: Counter<A>, k: nat)
    requires !v.EmpiricalVI? && ValidCounter(c0)
    requires forall a :: a in acts ==> SuccessorsIn(m.transition(s, a), read)
    requires k < |acts|
    ensures SuccessorsIn(m.transition(s, acts[k]), read)
    ensures ScanActions(m, gamma, v, read, s, acts, c0).costs[k] == Q(m, gamma, read, s, acts[k])
    decreases |acts|
  {
    assert acts[k] in acts;
    var n := |acts| - 1;
    ScanExtends(m, gamma, v, read, s, acts, c0);
    if k < n {
      ScanCostsAreQ(m, gamma, v, read, s, acts[..n], c0, k);
    } else {
      var prev := ScanActions(m, gamma, v, read, s, acts[..n], c0);
      assert EmpiricalProbOf(v, prev.counter) == 1.0;
    }
  }

  /** Outside `EmpiricalVI` the scan's `max_cost` is the Bellman backup over the scanned actions. */
  lemma {:induction false} ScanIsBellman<S(!new), A(!new)>(m: Mdp<S, A>, gamma: real, v: Iterator, read: map<S, real>, s: S, acts: seq<A>, c0: Counter<A>)
    requires !v.EmpiricalVI? && ValidCounter(c0)
    requires forall a :: a in acts ==> SuccessorsIn(m.transition(s, a), read)
    ensures ScanActions(m, gamma, v, read, s, acts, c0).maxCost == MaxQ(m, gamma, read, s, acts)
    decreases |acts|
  {
    if acts != [] {
      var n := |acts| - 1;
      ScanExtends(m, gamma, v, read, s, acts, c0);
      ScanIsBellman(m, gamma, v, read, s, acts[..n], c0);
      ScanCostsAreQ(m, gamma, v, read, s, acts, c0, n);
    }
  }

  /** `EmpiricalVI` keeps the reward and scales the discounted future by the ratio `e` in (0, 1]. */
  lemma EmpiricalCostScales<S(!new), A(!new)>(m: Mdp<S, A>, gamma: real, v: Iterator, read: map<S, real>, s: S, a: A, c: Counter<A>)
    requires ValidCounter(c) && SuccessorsIn(m.transition(s, a), read)
    ensures var e := EmpiricalProbOf(v, c);
      0.0 < e <= 1.0 &&
      ActionCost(m, gamma, v, read, s, a, c) == m.reward(s, a) + e * (Q(m, gamma, read, s, a) - m.reward(s, a))
  {
    SuccSumScales(m.transition(s, a), gamma, EmpiricalProbOf(v, c), read);
  }

  /** The innermost loop of `iterate`: accumulate the cost of `action` over its successors. */
  method CostOfAction<S(==,!new), A(==,!new)>(m: Mdp<S, A>, gamma: real, v: Iterator, read: map<S, real>, counters: map<S, Counter<A>>, state: S, action: A)
    returns (cost: real)
    requires ValidCounter(CounterAt(counters, state))
    requires SuccessorsIn(m.transition(state, action), read)
    ensures cost == ActionCost(m, gamma, v, read, state, action, CounterAt(counters, state))
  {
    cost := m.reward(state, action);
    var succ := m.transition(state, action);
    ghost var e := EmpiricalProbOf(v, CounterAt(counters, state));
    var k := 0;
    while k < |succ|
      invariant 0 <= k <= |succ|
      invariant cost == m.reward(state, action) + SuccSum(succ[..k], gamma, e, read)
    {
      assert succ[..k + 1][..k] == succ[..k];
      var (next, p) := succ[k];
      var prob := EmpiricalProb(v, counters, state, action);
      cost := cost + gamma * p * prob * read[next];
      k := k + 1;
    }
    assert succ[..k] == succ;
  }

  /**
   * One pass of the action loop for `acts[j]`: its cost, the running `max_cost`, the win count
   * `counters[state][action] += 1` when the new maximum equals the cost, and `costs.append`.
   */
  method ScanOne<S(==,!new), A(==,!new)>(m: Mdp<S, A>, gamma: real, v: Iterator, read: map<S, real>, counters: map<S, Counter<A>>, state: S,
                                         acts: seq<A>, j: nat, costs: seq<real>, maxCost: real, counters': map<S, Counter<A>>,
                                         ghost c0: Counter<A>, ghost sc: Scan<A>)
    returns (costs2: seq<real>, maxCost2: real, counters2: map<S, Counter<A>>, ghost sc2: Scan<A>)
    requires ValidCounter(c0) && j < |acts|
    requires forall a :: a in acts ==> SuccessorsIn(m.transition(state, a), read)
    requires ScanStepped(m, gamma, v, read, state, acts, c0, j, sc)
    requires costs == sc.costs && maxCost == sc.maxCost && counters' == Store(counters, state, sc.counter)
    ensures ScanStepped(m, gamma, v, read, state, acts, c0, j + 1, sc2)
    ensures costs2 == sc2.costs && maxCost2 == sc2.maxCost && counters2 == Store(counters, state, sc2.counter)
  {
    ScanStep(m, gamma, v, read, state, acts, c0, j);
    var action := acts[j];
    var cost := CostOfAction(m, gamma, v, read, counters', state, action);
    maxCost2 := Max(maxCost, cost);
    if maxCost2 == cost {
      var bumped := Increment(CounterAt(counters', state), action);
      StoreAgain(counters, counters', state, sc.counter, bumped);
      counters2 := counters'[state := bumped];
      sc2 := Scan(costs + [cost], maxCost2, bumped);
    } else {
      counters2 := counters';
      sc2 := Scan(costs + [cost], maxCost2, sc.counter);
    }
    costs2 := costs + [cost];
  }

  /** `sc` is the scan of the first `j` actions. */
  ghost predicate ScanStepped<S(!new), A(!new)>(m: Mdp<S, A>, gamma: real, v: Iterator, read: map<S, real>, s: S, acts: seq<A>, c0: Counter<A>, j: nat, sc: Scan<A>)
  {
    && ValidCounter(c0) && j <= |acts|
    && (forall a :: a in acts[..j] ==> SuccessorsIn(m.transition(s, a), read))
    && sc == ScanActions(m, gamma, v, read, s, acts[..j], c0)
  }

  /** The action loop of `iterate` for `state`, reading `read`. */
  method BackupState<S(==,!new), A(==,!new)>(m: Mdp<S, A>, gamma: real, v: Iterator, read: map<S, real>, counters: map<S, Counter<A>>, state: S)
    returns (costs: seq<real>, maxCost: real, counters': map<S, Counter<A>>)
    requires ValidCounter(CounterAt(counters, state))
    requires ActionsClosed(m, read, state)
    ensures var sc := ScanActions(m, gamma, v, read, state, m.actions(state), CounterAt(counters, state));
      costs == sc.costs && maxCost == sc.maxCost && counters' == Store(counters, state, sc.counter)
  {
    var acts := m.actions(state);
    ghost var c0 := CounterAt(counters, state);
    costs, maxCost, counters' := [], 0.0, counters;
    var j := 0;
    assert acts[..0] == [];
    ghost var sc := ScanActions(m, gamma, v, read, state, acts[..0], c0);
    assert ScanStepped(m, gamma, v, read, state, acts, c0, 0, sc);
    while j < |acts|
      invariant 0 <= j <= |acts|
      invariant ScanStepped(m, gamma, v, read, state, acts, c0, j, sc)
      invariant costs == sc.costs && maxCost == sc.maxCost && counters' == Store(counters, state, sc.counter)
    {
      costs, maxCost, counters', sc := ScanOne(m, gamma, v, read, counters, state, acts, j, costs, maxCost, counters', c0, sc);
      j := j + 1;
    }
    assert acts[..j] == acts;
  }

  // ---------------------------------------------------------------------------------------------
  // One sweep: `ValueIterator.iterate`.

  /** What `iterate` hands back: the new table, the policy `A`, and the counters it mutated. */
  datatype SweepResult<S, A> = SweepResult(values: map<S, real>, policy: map<S, seq<A>>, counters: map<S, Counter<A>>)

  /** Every visited state is in the table and leads only to states in it. */
  predicate SweepReady<S(==,!new), A(==,!new)>(m: Mdp<S, A>, v0: map<S, real>, visit: seq<S>)
  {
    forall s :: s in visit ==> s in v0 && ActionsClosed(m, v0, s)
  }

  lemma SweepReadyPrefix<S(!new), A(!new)>(m: Mdp<S, A>, v0: map<S, real>, visit: seq<S>, n: nat)
    requires SweepReady(m, v0, visit) && n <= |visit|
    ensures SweepReady(m, v0, visit[..n])
  {
    assert forall x :: x in visit[..n] ==> x in visit;
  }

  lemma SameKeysClosed<S(!new), A(!new)>(m: Mdp<S, A>, t: map<S, real>, u: map<S, real>, s: S)
    requires ActionsClosed(m, t, s)
    requires forall x :: x in t <==> x in u
    ensures ActionsClosed(m, u, s)
  {
  }

  /** The table a backup reads: the one being written under `DURING_SWEEP`, else the snapshot `v0`. */
  function ReadTable<S>(v: Iterator, written: map<S, real>, v0: map<S, real>): map<S, real>
  {
    if v.Rule() == DuringSweep then written else v0
  }

  /** One turn of the sweep: scan the actions of `s`, then store its `max_cost`, its policy entry and its counter. */
  function SweepTurn<S(==,!new), A(==,!new)>(m: Mdp<S, A>, gamma: real, v: Iterator, v0: map<S, real>, prev: SweepResult<S, A>, s: S): (r: SweepResult<S, A>)
    requires AllValid(prev.counters) && ActionsClosed(m, ReadTable(v, prev.values, v0), s)
    ensures AllValid(r.counters)
  {
    ValidAt(prev.counters, s);
    var sc := ScanActions(m, gamma, v, ReadTable(v, prev.values, v0), s, m.actions(s), CounterAt(prev.counters, s));
    StoreValid(prev.counters, s, sc.counter);
    SweepResult(
      prev.values[s := sc.maxCost],
      prev.policy[s := Ties(sc.costs, m.actions(s))],
      Store(prev.counters, s, sc.counter))
  }

  /**
   * The sweep over `visit`, state by state. Backups read the pre-sweep table `v0` under
   * `AFTER_SWEEP` and the table as written so far under `DURING_SWEEP`; either way the value
   * written for the state is its running `max_cost`.
   */
  function Sweep<S(==,!new), A(==,!new)>(m: Mdp<S, A>, gamma: real, v: Iterator, v0: map<S, real>, counters0: map<S, Counter<A>>, visit: seq<S>): (r: SweepResult<S, A>)
    requires SweepReady(m, v0, visit) && AllValid(counters0)
    ensures forall x :: x in r.values <==> x in v0
    ensures AllValid(r.counters)
    decreases |visit|
  {
    if visit == [] then SweepResult(v0, map[], counters0)
    else
      var prefix := visit[..|visit| - 1];
      var s := visit[|visit| - 1];
      SweepReadyPrefix(m, v0, visit, |visit| - 1);
      var prev := Sweep(m, gamma, v, v0, counters0, prefix);
      SameKeysClosed(m, v0, prev.values, s);
      SweepTurn(m, gamma, v, v0, prev, s)
  }

  /** Before the n-th visited state is backed up, everything its backup needs is in place. */
  lemma SweepStepReady<S(!new), A(!new)>(m: Mdp<S, A>, gamma: real, v: Iterator, v0: map<S, real>, counters0: map<S, Counter<A>>, visit: seq<S>, n: nat)
    requires SweepReady(m, v0, visit) && AllValid(counters0) && n < |visit|
    ensures SweepReady(m, v0, visit[..n]) && SweepReady(m, v0, visit[..n + 1])
    ensures var prev := Sweep(m, gamma, v, v0, counters0, visit[..n]);
      ActionsClosed(m, ReadTable(v, prev.values, v0), visit[n]) && ValidCounter(CounterAt(prev.counters, visit[n]))
  {
    SweepReadyPrefix(m, v0, visit, n);
    SweepReadyPrefix(m, v0, visit, n + 1);
    var prev := Sweep(m, gamma, v, v0, counters0, visit[..n]);
    SameKeysClosed(m, v0, prev.values, visit[n]);
    ValidAt(prev.counters, visit[n]);
  }

  /** The sweep over the first n + 1 visited states is the sweep over the first n and one more backup. */
  lemma SweepExtends<S(!new), A(!new)>(m: Mdp<S, A>, gamma: real, v: Iterator, v0: map<S, real>, counters0: map<S, Counter<A>>, visit: seq<S>, n: nat)
    requires SweepReady(m, v0, visit) && AllValid(counters0) && n < |visit|
    ensures SweepReady(m, v0, visit[..n]) && SweepReady(m, v0, visit[..n + 1])
    ensures var prev := Sweep(m, gamma, v, v0, counters0, visit[..n]);
      && ActionsClosed(m, ReadTable(v, prev.values, v0), visit[n])
      && Sweep(m, gamma, v, v0, counters0, visit[..n + 1]) == SweepTurn(m, gamma, v, v0, prev, visit[n])
  {
    SweepStepReady(m, gamma, v, v0, counters0, visit, n);
    assert visit[..n + 1][..n] == visit[..n];
  }

  /** `iterate`: draw the states, then back each one up in draw order. */
  method Iterate<S(==,!new), A(==,!new)>(m: Mdp<S, A>, gamma: real, v: Iterator, V0: map<S, real>, counters0: map<S, Counter<A>>, draw: seq<nat>)
    returns (r: Result<SweepResult<S, A>, SolveError>)
    requires DrawFits(v, |m.states|, draw)
    requires forall s :: s in m.states ==> s in V0 && ActionsClosed(m, V0, s)
    requires AllValid(counters0)
    ensures GetStates(v, m.states, draw).Err? ==> r == Err(SampleTooLarge)
    ensures GetStates(v, m.states, draw).Ok? ==>
      r == Ok(Sweep(m, gamma, v, V0, counters0, GetStates(v, m.states, draw).value))
  {
    var got := GetStates(v, m.states, draw);
    if got.Err? {
      return Err(got.error);
    }
    var sweep := SweepStates(m, gamma, v, V0, counters0, got.value);
    r := Ok(sweep);
  }

  /** The state of `iterate`'s loop after the first `i` visited states: it has swept `visit[..i]`. */
  ghost predicate SweptTo<S(!new), A(!new)>(m: Mdp<S, A>, gamma: real, v: Iterator, V0: map<S, real>, counters0: map<S, Counter<A>>, visit: seq<S>, i: nat,
                                         V: map<S, real>, vCopy: map<S, real>, policy: map<S, seq<A>>, counters: map<S, Counter<A>>, sw: SweepResult<S, A>)
  {
    && i <= |visit| && SweepReady(m, V0, visit) && AllValid(counters0)
    && SweepReady(m, V0, visit[..i])
    && sw == Sweep(m, gamma, v, V0, counters0, visit[..i])
    && (v.Rule() == AfterSweep ==> V == V0 && vCopy == sw.values)
    && (v.Rule() == DuringSweep ==> V == sw.values)
    && policy == sw.policy && counters == sw.counters
  }

  /** One turn of `iterate`'s loop: back up `visit[i]` and store its value and policy. */
  method SweepOne<S(==,!new), A(==,!new)>(m: Mdp<S, A>, gamma: real, v: Iterator, V0: map<S, real>, counters0: map<S, Counter<A>>, visit: seq<S>, i: nat,
                                          V: map<S, real>, vCopy: map<S, real>, policy: map<S, seq<A>>, counters: map<S, Counter<A>>, ghost sw: SweepResult<S, A>)
    returns (V': map<S, real>, vCopy': map<S, real>, policy': map<S, seq<A>>, counters': map<S, Counter<A>>, ghost sw': SweepResult<S, A>)
    requires i < |visit|
    requires SweptTo(m, gamma, v, V0, counters0, visit, i, V, vCopy, policy, counters, sw)
    ensures SweptTo(m, gamma, v, V0, counters0, visit, i + 1, V', vCopy', policy', counters', sw')
  {
    var state := visit[i];
    SweepStepReady(m, gamma, v, V0, counters0, visit, i);
    assert V == ReadTable(v, sw.values, V0);
    var costs, maxCost;
    costs, maxCost, counters' := BackupState(m, gamma, v, V, counters, state);
    policy' := policy[state := Ties(costs, m.actions(state))];
    V', vCopy' := V, vCopy;
    if v.Rule() == DuringSweep {
      V' := V[state := maxCost];
    } else {
      vCopy' := vCopy[state := maxCost];
    }
    sw' := SweepResult(sw.values[state := maxCost], policy', counters');
    SweepExtends(m, gamma, v, V0, counters0, visit, i);
  }

  /** Before the loop nothing is swept: the tables are `V_0`, the policy is empty and the counters are as given. */
  lemma SweptStart<S(!new), A(!new)>(m: Mdp<S, A>, gamma: real, v: Iterator, V0: map<S, real>, counters0: map<S, Counter<A>>, visit: seq<S>)
    requires SweepReady(m, V0, visit) && AllValid(counters0)
    ensures SweepReady(m, V0, visit[..0])
    ensures SweptTo(m, gamma, v, V0, counters0, visit, 0, V0, V0, map[], counters0, Sweep(m, gamma, v, V0, counters0, visit[..0]))
  {
    assert visit[..0] == [];
  }

  /** After the loop the table `iterate` returns, its policy and counters are the whole sweep. */
  lemma SweptAll<S(!new), A(!new)>(m: Mdp<S, A>, gamma: real, v: Iterator, V0: map<S, real>, counters0: map<S, Counter<A>>, visit: seq<S>,
                                   V: map<S, real>, vCopy: map<S, real>, policy: map<S, seq<A>>, counters: map<S, Counter<A>>, sw: SweepResult<S, A>)
    requires SweptTo(m, gamma, v, V0, counters0, visit, |visit|, V, vCopy, policy, counters, sw)
    ensures SweepResult(if v.Rule() == DuringSweep then V else vCopy, policy, counters) == Sweep(m, gamma, v, V0, counters0, visit)
  {
    assert visit[..|visit|] == visit;
  }

  /** The body of `iterate` once the states are drawn: the loop over `visit`. */
  method SweepStates<S(==,!new), A(==,!new)>(m: Mdp<S, A>, gamma: real, v: Iterator, V0: map<S, real>, counters0: map<S, Counter<A>>, visit: seq<S>)
    returns (r: SweepResult<S, A>)
    requires SweepReady(m, V0, visit) && AllValid(counters0)
    ensures r == Sweep(m, gamma, v, V0, counters0, visit)
  {
    var V := V0;
    // `copy.deepcopy(V_0)`; it is read back only under AFTER_SWEEP.
    var vCopy := V0;
    var policy: map<S, seq<A>> := map[];
    var counters := counters0;
    SweptStart(m, gamma, v, V0, counters0, visit);
    ghost var sw := Sweep(m, gamma, v, V0, counters0, visit[..0]);
    var i := 0;
    while i < |visit|
      invariant i <= |visit|
      invariant SweptTo(m, gamma, v, V0, counters0, visit, i, V, vCopy, policy, counters, sw)
    {
      V, vCopy, policy, counters, sw := SweepOne(m, gamma, v, V0, counters0, visit, i, V, vCopy, policy, counters, sw);
      i := i + 1;
    }
    SweptAll(m, gamma, v, V0, counters0, visit, V, vCopy, policy, counters, sw);
    r := SweepResult(if v.Rule() == DuringSweep then V else vCopy, policy, counters);
  }

  /** The last visited state is the only entry the sweep's last turn writes; its value is a floored `max_cost`. */
  lemma SweepLast<S(!new), A(!new)>(m: Mdp<S, A>, gamma: real, v: Iterator, v0: map<S, real>, counters0: map<S, Counter<A>>, visit: seq<S>)
    requires SweepReady(m, v0, visit) && AllValid(counters0) && visit != []
    ensures SweepReady(m, v0, visit[..|visit| - 1])
    ensures var prev, r, s := Sweep(m, gamma, v, v0, counters0, visit[..|visit| - 1]), Sweep(m, gamma, v, v0, counters0, visit), visit[|visit| - 1];
      && s in r.values && r.values[s] >= 0.0
      && r.values == prev.values[s := r.values[s]]
      && r.policy.Keys == prev.policy.Keys + {s}
  {
    SweepExtends(m, gamma, v, v0, counters0, visit, |visit| - 1);
    assert visit[..|visit|] == visit;
  }

  /** States a sweep does not visit keep their value and get no policy entry. */
  lemma {:induction false} SweepLeavesUnvisited<S(!new), A(!new)>(m: Mdp<S, A>, gamma: real, v: Iterator, v0: map<S, real>, counters0: map<S, Counter<A>>, visit: seq<S>)
    requires SweepReady(m, v0, visit) && AllValid(counters0)
    ensures forall s :: s in v0 && s !in visit ==> Sweep(m, gamma, v, v0, counters0, visit).values[s] == v0[s]
    ensures forall s :: s in Sweep(m, gamma, v, v0, counters0, visit).policy <==> s in visit
    decreases |visit|
  {
    if visit != [] {
      var prefix := visit[..|visit| - 1];
      assert forall x :: x in visit <==> x in prefix || x == visit[|visit| - 1];
      SweepLast(m, gamma, v, v0, counters0, visit);
      SweepLeavesUnvisited(m, gamma, v, v0, counters0, prefix);
    }
  }

  /** Every value a sweep writes is floored at 0, so a non-negative table stays non-negative. */
  lemma {:induction false} SweepNonNegative<S(!new), A(!new)>(m: Mdp<S, A>, gamma: real, v: Iterator, v0: map<S, real>, counters0: map<S, Counter<A>>, visit: seq<S>)
    requires SweepReady(m, v0, visit) && AllValid(counters0)
    requires forall s :: s in v0 ==> v0[s] >= 0.0
    ensures forall s :: s in v0 ==> Sweep(m, gamma, v, v0, counters0, visit).values[s] >= 0.0
    decreases |visit|
  {
    if visit != [] {
      SweepLast(m, gamma, v, v0, counters0, visit);
      SweepNonNegative(m, gamma, v, v0, counters0, visit[..|visit| - 1]);
    }
  }

  /**
   * `AFTER_SWEEP` without history weighting (`ClassicVI`, `RandomVI`): each visited state gets the
   * Bellman backup of the PRE-sweep table, whatever was written earlier in the sweep.
   */
  lemma {:induction false} SnapshotSweepIsBellman<S(!new), A(!new)>(m: Mdp<S, A>, gamma: real, v: Iterator, v0: map<S, real>, counters0: map<S, Counter<A>>, visit: seq<S>)
    requires v.ClassicVI? || v.RandomVI?
    requires SweepReady(m, v0, visit) && AllValid(counters0)
    ensures forall s :: s in visit ==> Sweep(m, gamma, v, v0, counters0, visit).values[s] == Backup(m, gamma, v0, s)
    decreases |visit|
  {
    if visit != [] {
      var prefix := visit[..|visit| - 1];
      var s := visit[|visit| - 1];
      assert forall x :: x in visit <==> x in prefix || x == s;
      SnapshotSweepIsBellman(m, gamma, v, v0, counters0, prefix);
      SweepExtends(m, gamma, v, v0, counters0, visit, |visit| - 1);
      assert visit[..|visit|] == visit;
      var prev := Sweep(m, gamma, v, v0, counters0, prefix);
      assert ActionsClosed(m, v0, s);
      ScanIsBellman(m, gamma, v, v0, s, m.actions(s), CounterAt(prev.counters, s));
      var after := Sweep(m, gamma, v, v0, counters0, visit).values;
      assert after[s] == Backup(m, gamma, v0, s);
      forall x | x in visit
        ensures after[x] == Backup(m, gamma, v0, x)
      {
        if x != s {
          assert x in prefix && after[x] == prev.values[x];
        }
      }
    }
  }

  /**
   * `DURING_SWEEP` (`CyclicVI`, `RandomCyclicVI`): the i-th visited state is backed up against the
   * table holding the values ALREADY WRITTEN for the states visited before it (Gauss-Seidel).
   */
  lemma InPlaceSweepIsGaussSeidel<S(!new), A(!new)>(m: Mdp<S, A>, gamma: real, v: Iterator, v0: map<S, real>, counters0: map<S, Counter<A>>, visit: seq<S>, i: nat)
    requires v.CyclicVI? || v.RandomCyclicVI?
    requires SweepReady(m, v0, visit) && AllValid(counters0)
    requires i < |visit|
    ensures SweepReady(m, v0, visit[..i]) && SweepReady(m, v0, visit[..i + 1])
    ensures var before := Sweep(m, gamma, v, v0, counters0, visit[..i]).values;
      ActionsClosed(m, before, visit[i]) &&
      Sweep(m, gamma, v, v0, counters0, visit[..i + 1]).values == before[visit[i] := Backup(m, gamma, before, visit[i])]
  {
    SweepExtends(m, gamma, v, v0, counters0, visit, i);
    var prev := Sweep(m, gamma, v, v0, counters0, visit[..i]);
    var s := visit[i];
    ScanIsBellman(m, gamma, v, prev.values, s, m.actions(s), CounterAt(prev.counters, s));
  }

  /** Only visited states can contribute to a sweep's delta. */
  lemma DeltaFromVisited<S(!new), A(!new)>(m: Mdp<S, A>, gamma: real, v: Iterator, v0: map<S, real>, counters0: map<S, Counter<A>>, visit: seq<S>)
    requires SweepReady(m, v0, visit) && AllValid(counters0)
    requires forall s :: s in m.states ==> s in v0
    ensures var after := Sweep(m, gamma, v, v0, counters0, visit).values;
      var d := MaxAbsDiff(m.states, after, v0);
      d == 0.0 || exists s :: s in m.states && s in visit && d == Abs(after[s] - v0[s])
  {
    SweepLeavesUnvisited(m, gamma, v, v0, counters0, visit);
    var after := Sweep(m, gamma, v, v0, counters0, visit).values;
    MaxAbsDiffUnchanged(m.states, after, v0, visit);
  }

  // ---------------------------------------------------------------------------------------------
  // The convergence loop: `Solver.solve`.

  /** Every successor of every action of every state is itself a state. */
  ghost predicate WellFormed<S(!new), A(!new)>(m: Mdp<S, A>)
  {
    forall s, a, k :: s in m.states && a in m.actions(s) && 0 <= k < |m.transition(s, a)| ==>
      m.transition(s, a)[k].0 in m.states
  }

  /** `{ state: 0 for state in states }`. */
  function Zeros<S(==,!new)>(states: seq<S>): (t: map<S, real>)
    ensures forall s :: s in t <==> s in states
    ensures forall s :: s in t ==> t[s] == 0.0
  {
    map s | s in states :: 0.0
  }

  /** What `solve` leaves in `solution`, `policy`, `deltas` and `time_each_step`. */
  datatype Solution<S, A> = Solution(values: map<S, real>, policy: map<S, seq<A>>, deltas: seq<real>, times: seq<real>)

  /** The tables and counters before sweep `i`: the zero table and empty history, then each sweep's output. */
  function Before<S(==,!new), A(!new)>(m: Mdp<S, A>, sweeps: seq<SweepResult<S, A>>, i: nat): SweepResult<S, A>
    requires i <= |sweeps|
  {
    if i == 0 then SweepResult(Zeros(m.states), map[], map[]) else sweeps[i - 1]
  }

  /** `next` is call number `i` of `iterate`, made from the tables and counters `b` on the i-th draw. */
  ghost predicate StepOk<S(!new), A(!new)>(m: Mdp<S, A>, gamma: real, v: Iterator, draws: nat -> seq<nat>, b: SweepResult<S, A>, i: nat, next: SweepResult<S, A>)
  {
    && DrawFits(v, |m.states|, draws(i))
    && GetStates(v, m.states, draws(i)).Ok?
    && SweepReady(m, b.values, GetStates(v, m.states, draws(i)).value)
    && AllValid(b.counters)
    && (forall s :: s in b.values <==> s in m.states)
    && next == Sweep(m, gamma, v, b.values, b.counters, GetStates(v, m.states, draws(i)).value)
  }

  /**
   * `sweeps[i]` is the i-th call of `iterate`, fed by the previous one, and `deltas[i]` is the
   * largest change that call made to any state's value.
   */
  ghost predicate Run<S(!new), A(!new)>(m: Mdp<S, A>, gamma: real, v: Iterator, draws: nat -> seq<nat>, sweeps: seq<SweepResult<S, A>>, deltas: seq<real>)
  {
    |deltas| == |sweeps| && forall i :: 0 <= i < |sweeps| ==> RunAt(m, gamma, v, draws, sweeps, deltas, i)
  }

  /** Entry `i` of a run: the sweep is call `i` of `iterate` and the delta is its largest change. */
  ghost predicate RunAt<S(!new), A(!new)>(m: Mdp<S, A>, gamma: real, v: Iterator, draws: nat -> seq<nat>, sweeps: seq<SweepResult<S, A>>, deltas: seq<real>, i: nat)
  {
    && i < |sweeps| && i < |deltas|
    && StepOk(m, gamma, v, draws, Before(m, sweeps, i), i, sweeps[i])
    && deltas[i] == MaxAbsDiff(m.states, sweeps[i].values, Before(m, sweeps, i).values)
  }

  /** The measured durations of sweeps 0 .. n - 1, in order. */
  function Times(elapsed: nat -> real, n: nat): (r: seq<real>)
    ensures |r| == n
    ensures forall i :: 0 <= i < n ==> r[i] == elapsed(i)
  {
    if n == 0 then [] else Times(elapsed, n - 1) + [elapsed(n - 1)]
  }

  /** The first `n` deltas all exceed the threshold, so the loop went on after each of them. */
  predicate Above(ds: seq<real>, n: int, t: real)
  {
    forall i :: 0 <= i < n && i < |ds| ==> ds[i] > t
  }

  lemma AboveExtends(ds: seq<real>, t: real, d: real)
    requires Above(ds, |ds| - 1, t)
    requires |ds| == 0 || ds[|ds| - 1] > t
    ensures Above(ds + [d], |ds|, t)
  {
    var es := ds + [d];
    forall i | 0 <= i < |ds|
      ensures es[i] > t
    {
      assert es[i] == ds[i];
    }
  }

  /** Appending a sweep changes none of the earlier "before" tables. */
  lemma BeforeAppend<S(!new), A(!new)>(m: Mdp<S, A>, sweeps: seq<SweepResult<S, A>>, next: SweepResult<S, A>)
    ensures forall i :: 0 <= i <= |sweeps| ==> Before(m, sweeps + [next], i) == Before(m, sweeps, i)
    ensures Before(m, sweeps + [next], |sweeps| + 1) == next
  {
    var t := sweeps + [next];
    forall i | 0 <= i <= |sweeps|
      ensures Before(m, t, i) == Before(m, sweeps, i)
    {
      if i > 0 {
        assert t[i - 1] == sweeps[i - 1];
      }
    }
  }

  /** Appending the next call of `iterate` and its delta to a run keeps it a run. */
  lemma RunExtends<S(!new), A(!new)>(m: Mdp<S, A>, gamma: real, v: Iterator, draws: nat -> seq<nat>, sweeps: seq<SweepResult<S, A>>, deltas: seq<real>,
                                     next: SweepResult<S, A>, delta: real)
    requires Run(m, gamma, v, draws, sweeps, deltas)
    requires StepOk(m, gamma, v, draws, Before(m, sweeps, |sweeps|), |sweeps|, next)
    requires forall s :: s in next.values <==> s in m.states
    requires delta == MaxAbsDiff(m.states, next.values, Before(m, sweeps, |sweeps|).values)
    ensures Run(m, gamma, v, draws, sweeps + [next], deltas + [delta])
    ensures Before(m, sweeps + [next], |sweeps| + 1) == next
  {
    forall i | 0 <= i < |sweeps| {
      RunAtAppend(m, gamma, v, draws, sweeps, deltas, next, delta, i);
    }
    RunAtLast(m, gamma, v, draws, sweeps, deltas, next, delta);
    BeforeAppend(m, sweeps, next);
  }

  lemma RunAtAppend<S(!new), A(!new)>(m: Mdp<S, A>, gamma: real, v: Iterator, draws: nat -> seq<nat>, sweeps: seq<SweepResult<S, A>>, deltas: seq<real>,
                                      next: SweepResult<S, A>, delta: real, i: nat)
    requires RunAt(m, gamma, v, draws, sweeps, deltas, i)
    ensures RunAt(m, gamma, v, draws, sweeps + [next], deltas + [delta], i)
  {
    var t, ds := sweeps + [next], deltas + [delta];
    assert t[i] == sweeps[i] && ds[i] == deltas[i];
    BeforeAppend(m, sweeps, next);
    assert Before(m, t, i) == Before(m, sweeps, i);
  }

  lemma RunAtLast<S(!new), A(!new)>(m: Mdp<S, A>, gamma: real, v: Iterator, draws: nat -> seq<nat>, sweeps: seq<SweepResult<S, A>>, deltas: seq<real>,
                                    next: SweepResult<S, A>, delta: real)
    requires |deltas| == |sweeps|
    requires StepOk(m, gamma, v, draws, Before(m, sweeps, |sweeps|), |sweeps|, next)
    requires forall s :: s in next.values <==> s in m.states
    requires delta == MaxAbsDiff(m.states, next.values, Before(m, sweeps, |sweeps|).values)
    ensures RunAt(m, gamma, v, draws, sweeps + [next], deltas + [delta], |sweeps|)
  {
    var t, ds := sweeps + [next], deltas + [delta];
    assert t[|sweeps|] == next && ds[|sweeps|] == delta;
    BeforeAppend(m, sweeps, next);
    assert Before(m, t, |sweeps|) == Before(m, sweeps, |sweeps|);
  }

  /** Every recorded delta is a largest absolute change, so none is negative. */
  lemma RunDeltasNonNegative<S(!new), A(!new)>(m: Mdp<S, A>, gamma: real, v: Iterator, draws: nat -> seq<nat>, sweeps: seq<SweepResult<S, A>>, deltas: seq<real>)
    requires Run(m, gamma, v, draws, sweeps, deltas)
    ensures forall i :: 0 <= i < |deltas| ==> deltas[i] >= 0.0
  {
    forall i | 0 <= i < |deltas|
      ensures deltas[i] >= 0.0
    {
      assert RunAt(m, gamma, v, draws, sweeps, deltas, i);
    }
  }

  lemma ClosedOverStates<S(!new), A(!new)>(m: Mdp<S, A>, t: map<S, real>)
    requires WellFormed(m)
    requires forall s :: s in t <==> s in m.states
    ensures forall s :: s in m.states ==> s in t && ActionsClosed(m, t, s)
  {
  }

  /**
   * One pass of the `solve` loop: `iterate` on the tables and counters in `b`, then the delta
   * `max(abs(V_new[s] - V_0[s]) for s in V)`, which raises on an empty state list.
   */
  method SolveStep<S(==,!new), A(==,!new)>(m: Mdp<S, A>, gamma: real, v: Iterator, draws: nat -> seq<nat>, b: SweepResult<S, A>, step: nat)
    returns (r: Result<(SweepResult<S, A>, real), SolveError>)
    requires WellFormed(m)
    requires DrawFits(v, |m.states|, draws(step))
    requires AllValid(b.counters)
    requires forall s :: s in b.values <==> s in m.states
    requires forall s :: s in b.values ==> b.values[s] >= 0.0
    ensures r.Err? ==>
      || (r.error == SampleTooLarge && v.RandomVI? && (v.k < 0 || v.k > |m.states|))
      || (r.error == EmptyStates && m.states == [])
    ensures r.Ok? ==> StepOk(m, gamma, v, draws, b, step, r.value.0)
    ensures r.Ok? ==> forall s :: s in r.value.0.values <==> s in m.states
    ensures r.Ok? ==> r.value.1 == MaxAbsDiff(m.states, r.value.0.values, b.values)
    ensures r.Ok? ==> forall s :: s in r.value.0.values ==> r.value.0.values[s] >= 0.0
    ensures r.Ok? ==> AllValid(r.value.0.counters)
  {
    ClosedOverStates(m, b.values);
    var it := Iterate(m, gamma, v, b.values, b.counters, draws(step));
    if it.Err? {
      return Err(it.error);
    }
    if m.states == [] {
      // max() of an empty list raises ValueError
      return Err(EmptyStates);
    }
    SweepNonNegative(m, gamma, v, b.values, b.counters, GetStates(v, m.states, draws(step)).value);
    var delta := MaxAbsDiff(m.states, it.value.values, b.values);
    r := Ok((it.value, delta));
  }

  /**
   * What the `solve` loop carries after the sweeps in `sweeps`: `V`, `Policy`, `deltas` and
   * `time_each_step` in `sol`, and the win counters.
   */
  ghost predicate Carried<S(!new), A(!new)>(m: Mdp<S, A>, gamma: real, v: Iterator, draws: nat -> seq<nat>, elapsed: nat -> real,
                                            sweeps: seq<SweepResult<S, A>>, sol: Solution<S, A>, counters: map<S, Counter<A>>)
  {
    && Run(m, gamma, v, draws, sweeps, sol.deltas)
    && sol.times == Times(elapsed, |sweeps|)
    && sol.values == Before(m, sweeps, |sweeps|).values
    && sol.policy == Before(m, sweeps, |sweeps|).policy
    && counters == Before(m, sweeps, |sweeps|).counters
    && AllValid(counters)
    && (forall s :: s in sol.values <==> s in m.states)
    && (forall s :: s in sol.values ==> sol.values[s] >= 0.0)
  }

  /** One pass of the `solve` loop on the carried state, appending one delta and one duration. */
  method Advance<S(==,!new), A(==,!new)>(m: Mdp<S, A>, gamma: real, v: Iterator, draws: nat -> seq<nat>, elapsed: nat -> real,
                                         ghost sweeps: seq<SweepResult<S, A>>, sol: Solution<S, A>, counters: map<S, Counter<A>>)
    returns (r: Result<(Solution<S, A>, map<S, Counter<A>>), SolveError>, ghost sweeps': seq<SweepResult<S, A>>)
    requires WellFormed(m)
    requires DrawFits(v, |m.states|, draws(|sweeps|))
    requires Carried(m, gamma, v, draws, elapsed, sweeps, sol, counters)
    ensures r.Err? ==>
      || (r.error == SampleTooLarge && v.RandomVI? && (v.k < 0 || v.k > |m.states|))
      || (r.error == EmptyStates && m.states == [])
    ensures r.Ok? ==> |sweeps'| == |sweeps| + 1 && Carried(m, gamma, v, draws, elapsed, sweeps', r.value.0, r.value.1)
    ensures r.Ok? ==> exists d :: r.value.0.deltas == sol.deltas + [d]
  {
    sweeps' := sweeps;
    var st := SolveStep(m, gamma, v, draws, SweepResult(sol.values, sol.policy, counters), |sol.deltas|);
    if st.Err? {
      return Err(st.error), sweeps';
    }
    var (next, delta) := st.value;
    RunExtends(m, gamma, v, draws, sweeps, sol.deltas, next, delta);
    sweeps' := sweeps + [next];
    var sol' := Solution(next.values, next.policy, sol.deltas + [delta], sol.times + [elapsed(|sol.deltas|)]);
    r := Ok((sol', next.counters));
  }

  /**
   * `Solver.solve(steps, threshold)`. Exactly one of the two must be given. With `steps = n` the
   * guard `step <= steps` runs n + 1 sweeps; with a threshold the loop runs until the last delta is
   * at most the threshold (bounded here by `fuel`). `draws(i)` is what `random.sample` returns on
   * sweep i and `elapsed(i)` the measured duration of sweep i.
   */
  method RunSolve<S(==,!new), A(==,!new)>(m: Mdp<S, A>, gamma: real, v: Iterator, steps: Option<int>, threshold: Option<real>,
                               draws: nat -> seq<nat>, elapsed: nat -> real, fuel: nat)
    returns (r: Result<Solution<S, A>, SolveError>, ghost sweeps: seq<SweepResult<S, A>>, ghost ds: seq<real>)
    requires WellFormed(m)
    requires forall i: nat :: DrawFits(v, |m.states|, draws(i))
    ensures r == Err(InvalidConfig) <==> steps.Some? == threshold.Some?
    ensures r == Err(SampleTooLarge) ==> v.RandomVI? && (v.k < 0 || v.k > |m.states|)
    ensures r == Err(EmptyStates) ==> m.states == []
    ensures r == Err(FuelExhausted) ==>
      threshold.Some? && |sweeps| == fuel && Run(m, gamma, v, draws, sweeps, ds) && Above(ds, fuel, threshold.value)
    ensures r.Ok? ==>
      && r.value.deltas == ds
      && Carried(m, gamma, v, draws, elapsed, sweeps, r.value, Before(m, sweeps, |sweeps|).counters)
      && (steps.Some? ==> |sweeps| == if steps.value < 0 then 0 else steps.value + 1)
      && (threshold.Some? ==> |sweeps| >= 1 && ds[|sweeps| - 1] <= threshold.value && Above(ds, |sweeps| - 1, threshold.value))
  {
    sweeps, ds := [], [];
    if steps.Some? == threshold.Some? {
      // assert (steps is not None) != (threshold is not None)
      return Err(InvalidConfig), sweeps, ds;
    }
    var sol: Solution<S, A> := Solution(Zeros(m.states), map[], [], []);
    var counters: map<S, Counter<A>> := map[];
    var step := 0;
    while (threshold.Some? && (|sol.deltas| == 0 || sol.deltas[|sol.deltas| - 1] > threshold.value))
       || (steps.Some? && step <= steps.value)
      invariant step == |sweeps| == |sol.deltas|
      invariant Carried(m, gamma, v, draws, elapsed, sweeps, sol, counters)
      invariant threshold.Some? ==> step <= fuel && Above(sol.deltas, |sol.deltas| - 1, threshold.value)
      invariant steps.Some? ==> step <= if steps.value < 0 then 0 else steps.value + 1
      decreases if threshold.Some? then fuel - step else steps.value + 1 - step
    {
      if threshold.Some? && step == fuel {
        return Err(FuelExhausted), sweeps, sol.deltas;
      }
      var next;
      next, sweeps := Advance(m, gamma, v, draws, elapsed, sweeps, sol, counters);
      if next.Err? {
        return Err(next.error), sweeps, sol.deltas;
      }
      if threshold.Some? {
        AboveExtends(sol.deltas, threshold.value, next.value.0.deltas[|sol.deltas|]);
      }
      sol, counters := next.value.0, next.value.1;
      step := step + 1;
    }
    r, ds := Ok(sol), sol.deltas;
  }

  /** `Solver`: holds the iterator, the MDP and gamma, and stores the results of `solve`. */
  class Solver<S(==,!new), A(==,!new)> {
    const valueIterator: Iterator
    const mdp: Mdp<S, A>
    const gamma: real
    var solution: Option<map<S, real>>
    var deltas: Option<seq<real>>
    var timeEachStep: Option<seq<real>>
    var policy: Option<map<S, seq<A>>>

    constructor (valueIterator: Iterator, mdp: Mdp<S, A>, gamma: real)
      ensures this.valueIterator == valueIterator && this.mdp == mdp && this.gamma == gamma
      ensures solution.None? && deltas.None? && timeEachStep.None? && policy.None?
    {
      this.valueIterator, this.mdp, this.gamma := valueIterator, mdp, gamma;
      solution, deltas, timeEachStep, policy := None, None, None, None;
    }

    /**
     * `solve`: on success the four result fields hold the loop's outcome, the tables, policies,
     * deltas and timings of the sweeps in `sweeps`; on an error nothing changes.
     */
    method Solve(steps: Option<int>, threshold: Option<real>, draws: nat -> seq<nat>, elapsed: nat -> real, fuel: nat)
      returns (err: Option<SolveError>, ghost sweeps: seq<SweepResult<S, A>>)
      requires WellFormed(mdp)
      requires forall i: nat :: DrawFits(valueIterator, |mdp.states|, draws(i))
      modifies this
      ensures err == Some(InvalidConfig) <==> steps.Some? == threshold.Some?
      ensures err == Some(SampleTooLarge) ==> valueIterator.RandomVI? && (valueIterator.k < 0 || valueIterator.k > |mdp.states|)
      ensures err == Some(EmptyStates) ==> mdp.states == []
      ensures err == Some(FuelExhausted) ==> threshold.Some? && |sweeps| == fuel
      ensures err.Some? ==> solution == old(solution) && deltas == old(deltas) && timeEachStep == old(timeEachStep) && policy == old(policy)
      ensures err.None? ==> solution.Some? && deltas.Some? && timeEachStep.Some? && policy.Some?
      ensures err.None? ==>
        Carried(mdp, gamma, valueIterator, draws, elapsed, sweeps,
                Solution(solution.value, policy.value, deltas.value, timeEachStep.value), Before(mdp, sweeps, |sweeps|).counters)
      ensures err.None? ==> |deltas.value| == |timeEachStep.value|
      ensures err.None? && steps.Some? ==> |deltas.value| == if steps.value < 0 then 0 else steps.value + 1
      ensures err.None? && threshold.Some? ==>
        |deltas.value| >= 1 && deltas.value[|deltas.value| - 1] <= threshold.value &&
        Above(deltas.value, |deltas.value| - 1, threshold.value)
      ensures err.None? ==> forall i :: 0 <= i < |deltas.value| ==> deltas.value[i] >= 0.0
      ensures err.None? ==> forall s :: s in solution.value ==> solution.value[s] >= 0.0
    {
      ghost var ds;
      var r;
      r, sweeps, ds := RunSolve(mdp, gamma, valueIterator, steps, threshold, draws, elapsed, fuel);
      if r.Err? {
        return Some(r.error), sweeps;
      }
      RunDeltasNonNegative(mdp, gamma, valueIterator, draws, sweeps, ds);
      solution, deltas, timeEachStep, policy := Some(r.value.values), Some(r.value.deltas), Some(r.value.times), Some(r.value.policy);
      err := None;
    }
  }
}
