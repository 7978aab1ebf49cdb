/**
 * The first generation of value-iteration engines: one object per discipline, each with a `run`
 * that performs one sweep over `game.states` and returns the largest change it saw, and a
 * `VISimulation` driver that repeats `run` until the change drops below a threshold. The game is
 * any object offering `states`, `actions`, `transition`, `reward` and a mutable value table `V`.
 */
module DeprecatedVI {
  import opened Wrappers
  import opened ValueTables
  import MdpModels

  /** The four engines, told apart by their `__str__`. */
  datatype Discipline = Classic | Random | Cyclic | RandomCyclic
  {
    function Name(): string
    {
      match this
      case Classic => "ClassicVI"
      case Random => "RandomVI"
      case Cyclic => "CyclicVI"
      case RandomCyclic => "RandomCyclicVI"
    }

    /** Whether `run` draws `random.sample(states, int(sample_rate * len(states)))`. */
    predicate Samples()
    {
      this == Random || this == RandomCyclic
    }

    /** Whether `run` writes `game.V` in place instead of filling `V_new` and copying it. */
    predicate InPlace()
    {
      this == Cyclic || this == RandomCyclic
    }
  }

  /** The labels name the engines apart. */
  lemma NamesDistinct(d: Discipline, e: Discipline)
    requires d != e
    ensures d.Name() != e.Name()
  {
    assert "ClassicVI"[1] == 'l' && "CyclicVI"[1] == 'y';
    assert "RandomVI"[6] == 'V' && "RandomCyclicVI"[6] == 'C';
  }

  /** `random.sample` raises ValueError for a sample size below 0 or above the population. */
  datatype RunError = SampleSizeOutOfRange

  /** The sampling engines' sample size is out of range, so `random.sample` raises. */
  predicate OutOfRange(d: Discipline, rate: real, n: nat)
  {
    var k := SampleSize(rate, n);
    d.Samples() && (k < 0 || k > n)
  }

  /** The draw a sampling engine is given is a genuine sample of the size it asks for. */
  predicate DrawFits(d: Discipline, rate: real, n: nat, draw: seq<nat>)
  {
    var k := SampleSize(rate, n);
    d.Samples() && 0 <= k <= n ==> IsSample(draw, n, k)
  }

  /** Every state of `visit` and every successor of its actions is a key of `keys`. */
  predicate Within<S(==,!new), A(==,!new)>(m: Mdp<S, A>, keys: set<S>, visit: seq<S>)
  {
    forall s :: s in visit ==>
      s in keys && forall a, k :: a in m.actions(s) && 0 <= k < |m.transition(s, a)| ==> m.transition(s, a)[k].0 in keys
  }

  /** A larger key set still covers what a smaller one did. */
  lemma WithinGrows<S(!new), A(!new)>(m: Mdp<S, A>, small: set<S>, large: set<S>, visit: seq<S>)
    requires Within(m, small, visit) && small <= large
    ensures Within(m, large, visit)
  {
  }

  /** The sweep so far: the table it writes and the running `delta`. */
  datatype Pass<S> = Pass(table: map<S, real>, delta: real)

  /**
   * The first `n` turns of the sweep of `ClassicValueIteration` and `RandomValueIteration`: every
   * backup reads the unchanged table `v`, each visited state of `picked` gets its backup in the
   * scratch table, and every visited state adds `abs(v[s] - scratch[s])` to the running maximum.
   */
  function SnapshotPass<S(==,!new), A(==,!new)>(m: Mdp<S, A>, gamma: real, v: map<S, real>, scratch: map<S, real>, visit: seq<S>, picked: seq<S>, n: nat): (r: Pass<S>)
    requires Within(m, v.Keys, visit)
    requires forall s :: s in visit && s !in picked ==> s in scratch
    requires n <= |visit|
    ensures r.delta >= 0.0
    ensures scratch.Keys <= r.table.Keys
    decreases n
  {
    if n == 0 then Pass(scratch, 0.0)
    else
      var prev, s := SnapshotPass(m, gamma, v, scratch, visit, picked, n - 1), visit[n - 1];
      var t := if s in picked then prev.table[s := Backup(m, gamma, v, s)] else prev.table;
      Pass(t, Max(prev.delta, Abs(v[s] - t[s])))
  }

  /**
   * The first `n` turns of the sweep of `CyclicValueIteration` and `RandomCyclicValueIteration`:
   * the table is updated in place in visiting order, so a backup reads the values earlier states of
   * the same sweep have just written; each visited state's change is measured against its value on
   * arrival.
   */
  function InPlacePass<S(==,!new), A(==,!new)>(m: Mdp<S, A>, gamma: real, v: map<S, real>, visit: seq<S>, picked: seq<S>, n: nat): (r: Pass<S>)
    requires Within(m, v.Keys, visit)
    requires n <= |visit|
    ensures r.delta >= 0.0
    ensures r.table.Keys == v.Keys
    decreases n
  {
    if n == 0 then Pass(v, 0.0)
    else
      var prev, s := InPlacePass(m, gamma, v, visit, picked, n - 1), visit[n - 1];
      var t := if s in picked then prev.table[s := Backup(m, gamma, prev.table, s)] else prev.table;
      Pass(t, Max(prev.delta, Abs(prev.table[s] - t[s])))
  }

  /** After `n` turns of a snapshot sweep, a visited state of `picked` holds its backup against `v`; any other key keeps its scratch value. */
  lemma {:induction false} SnapshotWrites<S(!new), A(!new)>(m: Mdp<S, A>, gamma: real, v: map<S, real>, scratch: map<S, real>, visit: seq<S>, picked: seq<S>, n: nat)
    requires Within(m, v.Keys, visit)
    requires forall s :: s in visit && s !in picked ==> s in scratch
    requires n <= |visit|
    ensures var t := SnapshotPass(m, gamma, v, scratch, visit, picked, n).table;
      forall s :: s in scratch || s in visit[..n] ==>
        s in t && t[s] == if s in visit[..n] && s in picked then Backup(m, gamma, v, s) else scratch[s]
    decreases n
  {
    if n > 0 {
      assert forall x :: x in visit[..n] <==> x in visit[..n - 1] || x == visit[n - 1];
      assert forall x :: x in visit[..n] ==> x in visit;
      SnapshotWrites(m, gamma, v, scratch, visit, picked, n - 1);
    }
  }

  /** Later turns of a snapshot sweep leave the entries of states visited in the first `n` as they were. */
  lemma SnapshotSettled<S(!new), A(!new)>(m: Mdp<S, A>, gamma: real, v: map<S, real>, scratch: map<S, real>, visit: seq<S>, picked: seq<S>, n: nat)
    requires Within(m, v.Keys, visit)
    requires forall s :: s in visit && s !in picked ==> s in scratch
    requires 0 < n <= |visit|
    ensures var prev, t := SnapshotPass(m, gamma, v, scratch, visit, picked, n - 1).table, SnapshotPass(m, gamma, v, scratch, visit, picked, n).table;
      (forall s :: s in visit[..n] ==> s in v && s in t) &&
      (forall s :: s in visit[..n - 1] ==> s in prev && s in t && prev[s] == t[s])
  {
    assert forall x :: x in visit[..n] ==> x in visit;
    assert forall x :: x in visit[..n - 1] ==> x in visit[..n];
    SnapshotWrites(m, gamma, v, scratch, visit, picked, n - 1);
    SnapshotWrites(m, gamma, v, scratch, visit, picked, n);
  }

  /** The `n`-th turn of a snapshot sweep measures the visited state's scratch entry against `v`. */
  lemma SnapshotDeltaNext<S(!new), A(!new)>(m: Mdp<S, A>, gamma: real, v: map<S, real>, scratch: map<S, real>, visit: seq<S>, picked: seq<S>, n: nat)
    requires Within(m, v.Keys, visit)
    requires forall s :: s in visit && s !in picked ==> s in scratch
    requires 0 < n <= |visit|
    ensures visit[n - 1] in v
    ensures var prev, r := SnapshotPass(m, gamma, v, scratch, visit, picked, n - 1), SnapshotPass(m, gamma, v, scratch, visit, picked, n);
      visit[n - 1] in r.table && r.delta == Max(prev.delta, Abs(v[visit[n - 1]] - r.table[visit[n - 1]]))
  {
  }

  /** One more turn of a snapshot sweep keeps its `delta` equal to the largest change so far. */
  lemma SnapshotDeltaStep<S(!new), A(!new)>(m: Mdp<S, A>, gamma: real, v: map<S, real>, scratch: map<S, real>, visit: seq<S>, picked: seq<S>, n: nat)
    requires Within(m, v.Keys, visit)
    requires forall s :: s in visit && s !in picked ==> s in scratch
    requires 0 < n <= |visit|
    requires var prev := SnapshotPass(m, gamma, v, scratch, visit, picked, n - 1);
      forall s :: s in visit[..n - 1] ==> s in v && s in prev.table
    requires var prev := SnapshotPass(m, gamma, v, scratch, visit, picked, n - 1);
      prev.delta == MaxAbsDiff(visit[..n - 1], v, prev.table)
    ensures var r := SnapshotPass(m, gamma, v, scratch, visit, picked, n);
      (forall s :: s in visit[..n] ==> s in v && s in r.table) &&
      r.delta == MaxAbsDiff(visit[..n], v, r.table)
  {
    var prev, r := SnapshotPass(m, gamma, v, scratch, visit, picked, n - 1), SnapshotPass(m, gamma, v, scratch, visit, picked, n);
    SnapshotSettled(m, gamma, v, scratch, visit, picked, n);
    SnapshotDeltaNext(m, gamma, v, scratch, visit, picked, n);
    MaxAbsDiffExtend(visit, n, v, prev.table, r.table, prev.delta, r.delta);
  }

  /**
   * The `delta` of a snapshot sweep is the largest change between `v` and the scratch table it
   * leaves: for `RandomValueIteration` that includes unsampled states whose scratch value is stale.
   */
  lemma {:induction false} SnapshotDelta<S(!new), A(!new)>(m: Mdp<S, A>, gamma: real, v: map<S, real>, scratch: map<S, real>, visit: seq<S>, picked: seq<S>, n: nat)
    requires Within(m, v.Keys, visit)
    requires forall s :: s in visit && s !in picked ==> s in scratch
    requires n <= |visit|
    ensures var r := SnapshotPass(m, gamma, v, scratch, visit, picked, n);
      (forall s :: s in visit[..n] ==> s in v && s in r.table) &&
      r.delta == MaxAbsDiff(visit[..n], v, r.table)
    decreases n
  {
    if n > 0 {
      SnapshotDelta(m, gamma, v, scratch, visit, picked, n - 1);
      SnapshotDeltaStep(m, gamma, v, scratch, visit, picked, n);
    }
  }

  /** An in-place sweep changes no key outside the visited states of `picked`. */
  lemma {:induction false} InPlaceUnpicked<S(!new), A(!new)>(m: Mdp<S, A>, gamma: real, v: map<S, real>, visit: seq<S>, picked: seq<S>, n: nat)
    requires Within(m, v.Keys, visit)
    requires n <= |visit|
    ensures var t := InPlacePass(m, gamma, v, visit, picked, n).table;
      forall s :: s in t && (s !in visit[..n] || s !in picked) ==> t[s] == v[s]
    decreases n
  {
    if n > 0 {
      assert forall x :: x in visit[..n - 1] ==> x in visit[..n];
      assert visit[n - 1] in visit[..n];
      InPlaceUnpicked(m, gamma, v, visit, picked, n - 1);
    }
  }

  /** Over distinct states an in-place sweep writes no state twice, so turns after the `i`-th miss the states visited before it. */
  lemma {:induction false} InPlaceKeepsEarlier<S(!new), A(!new)>(m: Mdp<S, A>, gamma: real, v: map<S, real>, visit: seq<S>, picked: seq<S>, i: nat, n: nat)
    requires Within(m, v.Keys, visit)
    requires MdpModels.Distinct(visit)
    requires i <= n <= |visit|
    ensures var early, t := InPlacePass(m, gamma, v, visit, picked, i).table, InPlacePass(m, gamma, v, visit, picked, n).table;
      forall j :: 0 <= j < i ==> t[visit[j]] == early[visit[j]]
    decreases n - i
  {
    if i < n {
      InPlaceKeepsEarlier(m, gamma, v, visit, picked, i, n - 1);
      assert forall j :: 0 <= j < i ==> visit[j] != visit[n - 1];
    }
  }

  /** Over distinct states the `n`-th turn of an in-place sweep visits a fresh state and leaves the entries of the earlier ones as they were. */
  lemma InPlaceSettled<S(!new), A(!new)>(m: Mdp<S, A>, gamma: real, v: map<S, real>, visit: seq<S>, picked: seq<S>, n: nat)
    requires Within(m, v.Keys, visit)
    requires MdpModels.Distinct(visit)
    requires 0 < n <= |visit|
    ensures visit[n - 1] !in visit[..n - 1]
    ensures var prev, t := InPlacePass(m, gamma, v, visit, picked, n - 1).table, InPlacePass(m, gamma, v, visit, picked, n).table;
      forall s :: s in visit[..n - 1] ==> s in prev && s in t && prev[s] == t[s]
  {
    var prev, t := InPlacePass(m, gamma, v, visit, picked, n - 1).table, InPlacePass(m, gamma, v, visit, picked, n).table;
    InPlaceKeepsEarlier(m, gamma, v, visit, picked, n - 1, n);
    forall k | k in visit[..n - 1]
      ensures k != visit[n - 1] && k in prev && k in t && prev[k] == t[k]
    {
      var j :| 0 <= j < n - 1 && visit[..n - 1][j] == k;
      assert visit[j] == k;
    }
  }

  /** The `n`-th turn of an in-place sweep measures the visited state's change against its value on arrival. */
  lemma InPlaceDeltaNext<S(!new), A(!new)>(m: Mdp<S, A>, gamma: real, v: map<S, real>, visit: seq<S>, picked: seq<S>, n: nat)
    requires Within(m, v.Keys, visit)
    requires 0 < n <= |visit|
    ensures visit[n - 1] in v
    ensures var prev, r := InPlacePass(m, gamma, v, visit, picked, n - 1), InPlacePass(m, gamma, v, visit, picked, n);
      r.delta == Max(prev.delta, Abs(prev.table[visit[n - 1]] - r.table[visit[n - 1]]))
  {
  }

  /** Over distinct states one more turn of an in-place sweep keeps its `delta` equal to the largest change so far. */
  lemma InPlaceDeltaStep<S(!new), A(!new)>(m: Mdp<S, A>, gamma: real, v: map<S, real>, visit: seq<S>, picked: seq<S>, n: nat)
    requires Within(m, v.Keys, visit)
    requires MdpModels.Distinct(visit)
    requires 0 < n <= |visit|
    requires forall s :: s in visit[..n] ==> s in v
    requires var prev := InPlacePass(m, gamma, v, visit, picked, n - 1);
      forall s :: s in visit[..n - 1] ==> s in v && s in prev.table
    requires var prev := InPlacePass(m, gamma, v, visit, picked, n - 1);
      prev.delta == MaxAbsDiff(visit[..n - 1], v, prev.table)
    ensures var r := InPlacePass(m, gamma, v, visit, picked, n);
      r.delta == MaxAbsDiff(visit[..n], v, r.table)
  {
    var prev, r := InPlacePass(m, gamma, v, visit, picked, n - 1), InPlacePass(m, gamma, v, visit, picked, n);
    InPlaceSettled(m, gamma, v, visit, picked, n);
    InPlaceUnpicked(m, gamma, v, visit, picked, n - 1);
    InPlaceDeltaNext(m, gamma, v, visit, picked, n);
    MaxAbsDiffExtend(visit, n, v, prev.table, r.table, prev.delta, r.delta);
  }

  /** Over distinct states the `delta` of an in-place sweep is the largest change between the table before and after it. */
  lemma {:induction false} InPlaceDelta<S(!new), A(!new)>(m: Mdp<S, A>, gamma: real, v: map<S, real>, visit: seq<S>, picked: seq<S>, n: nat)
    requires Within(m, v.Keys, visit)
    requires MdpModels.Distinct(visit)
    requires n <= |visit|
    ensures forall s :: s in visit[..n] ==> s in v
    ensures var r := InPlacePass(m, gamma, v, visit, picked, n);
      r.delta == MaxAbsDiff(visit[..n], v, r.table)
    decreases n
  {
    assert forall x :: x in visit[..n] ==> x in visit;
    if n > 0 {
      assert forall x :: x in visit[..n - 1] ==> x in visit;
      InPlaceDelta(m, gamma, v, visit, picked, n - 1);
      InPlaceDeltaStep(m, gamma, v, visit, picked, n);
    }
  }

  // ---------------------------------------------------------------------------------------------
  // One call of `run`.

  /** What a sweep leaves: its `delta`, the new `game.V` and the new `V_new`. */
  datatype Outcome<S> = Outcome(delta: real, values: map<S, real>, scratch: map<S, real>)

  /** What `run` needs not to raise KeyError: `game.V` covers the sweep, and `V_new` every state `RandomVI` may read unsampled. */
  predicate StepReady<S(==,!new), A(==,!new)>(d: Discipline, m: Mdp<S, A>, v: map<S, real>, scratch: map<S, real>)
  {
    Within(m, v.Keys, m.states) && (d == Random ==> forall s :: s in m.states ==> s in scratch)
  }

  /**
   * One call of `run` on a game with table `v`, scratch table `V_new` = `scratch` and sample
   * `draw`: the sampling engines fail before touching anything when the sample size is out of
   * range; the snapshot engines leave `game.V` equal to (a copy of) the scratch table; the
   * in-place engines ignore the scratch table.
   */
  function Step<S(==,!new), A(==,!new)>(d: Discipline, m: Mdp<S, A>, gamma: real, rate: real, v: map<S, real>, scratch: map<S, real>, draw: seq<nat>): (r: Result<Outcome<S>, RunError>)
    requires StepReady(d, m, v, scratch)
    requires DrawFits(d, rate, |m.states|, draw)
    ensures r.Err? <==> OutOfRange(d, rate, |m.states|)
    ensures r.Ok? && !d.InPlace() ==> r.value.values == r.value.scratch
    ensures r.Ok? && d.InPlace() ==> r.value.scratch == scratch && r.value.values.Keys == v.Keys
    ensures r.Ok? ==> r.value.delta >= 0.0
  {
    if OutOfRange(d, rate, |m.states|) then Err(SampleSizeOutOfRange)
    else
      var picked := if d.Samples() then Pick(m.states, draw) else m.states;
      if d.InPlace() then
        var p := InPlacePass(m, gamma, v, m.states, picked, |m.states|);
        Ok(Outcome(p.delta, p.table, scratch))
      else
        var p := SnapshotPass(m, gamma, v, scratch, m.states, picked, |m.states|);
        Ok(Outcome(p.delta, p.table, p.table))
  }

  /** `ClassicVI` backs every state up against the old table, and its delta is the largest change it makes. */
  lemma ClassicBacksUpAll<S(!new), A(!new)>(m: Mdp<S, A>, gamma: real, rate: real, v: map<S, real>, scratch: map<S, real>, draw: seq<nat>)
    requires StepReady(Classic, m, v, scratch)
    ensures Step(Classic, m, gamma, rate, v, scratch, draw).Ok?
    ensures var o := Step(Classic, m, gamma, rate, v, scratch, draw).value;
      (forall s :: s in m.states ==> s in o.values && o.values[s] == Backup(m, gamma, v, s)) &&
      o.delta == MaxAbsDiff(m.states, v, o.values)
  {
    SnapshotWrites(m, gamma, v, scratch, m.states, m.states, |m.states|);
    SnapshotDelta(m, gamma, v, scratch, m.states, m.states, |m.states|);
    assert m.states[..|m.states|] == m.states;
  }

  /**
   * `RandomVI` backs up exactly the sampled states against the old table, every other state keeps
   * its `V_new` value, and its delta is the largest difference between the old table and the new one.
   */
  lemma RandomBacksUpSampled<S(!new), A(!new)>(m: Mdp<S, A>, gamma: real, rate: real, v: map<S, real>, scratch: map<S, real>, draw: seq<nat>)
    requires StepReady(Random, m, v, scratch)
    requires DrawFits(Random, rate, |m.states|, draw)
    requires Step(Random, m, gamma, rate, v, scratch, draw).Ok?
    ensures var o := Step(Random, m, gamma, rate, v, scratch, draw).value;
      var picked := Pick(m.states, draw);
      (forall s :: s in m.states && s in picked ==> o.values[s] == Backup(m, gamma, v, s)) &&
      (forall s :: s in m.states && s !in picked ==> o.values[s] == scratch[s]) &&
      o.delta == MaxAbsDiff(m.states, v, o.values)
  {
    SnapshotWrites(m, gamma, v, scratch, m.states, Pick(m.states, draw), |m.states|);
    SnapshotDelta(m, gamma, v, scratch, m.states, Pick(m.states, draw), |m.states|);
    assert m.states[..|m.states|] == m.states;
  }

  /**
   * The in-place engines, over distinct states: only sampled states change (all of them for
   * `CyclicVI`), the delta is the largest change of `game.V`, and it is 0 or set by a sampled state.
   */
  lemma InPlaceChangesSampled<S(!new), A(!new)>(d: Discipline, m: Mdp<S, A>, gamma: real, rate: real, v: map<S, real>, scratch: map<S, real>, draw: seq<nat>)
    requires d.InPlace()
    requires StepReady(d, m, v, scratch)
    requires DrawFits(d, rate, |m.states|, draw)
    requires MdpModels.Distinct(m.states)
    requires Step(d, m, gamma, rate, v, scratch, draw).Ok?
    ensures var o := Step(d, m, gamma, rate, v, scratch, draw).value;
      var picked := if d.Samples() then Pick(m.states, draw) else m.states;
      (forall s :: s in v && s !in picked ==> o.values[s] == v[s]) &&
      o.delta == MaxAbsDiff(m.states, v, o.values) &&
      (o.delta == 0.0 || exists s :: s in m.states && s in picked && o.delta == Abs(v[s] - o.values[s]))
  {
    var picked := if d.Samples() then Pick(m.states, draw) else m.states;
    InPlaceUnpicked(m, gamma, v, m.states, picked, |m.states|);
    InPlaceDelta(m, gamma, v, m.states, picked, |m.states|);
    assert m.states[..|m.states|] == m.states;
    MaxAbsDiffUnchanged(m.states, v, InPlacePass(m, gamma, v, m.states, picked, |m.states|).table, picked);
  }

  /**
   * A step keeps the tables ready for the next one when `V_new` holds the keys `grid`: the
   * snapshot engines make `game.V` a copy of `V_new`, which then holds `grid` and every state,
   * so the next sweep is ready when every successor is a state or a key of `grid`.
   */
  lemma StepKeepsReady<S(!new), A(!new)>(d: Discipline, m: Mdp<S, A>, gamma: real, rate: real, v: map<S, real>, scratch: map<S, real>, draw: seq<nat>, grid: set<S>)
    requires !d.InPlace() ==> Within(m, grid + (set s | s in m.states), m.states)
    requires grid <= scratch.Keys
    requires StepReady(d, m, v, scratch)
    requires DrawFits(d, rate, |m.states|, draw)
    requires Step(d, m, gamma, rate, v, scratch, draw).Ok?
    ensures var o := Step(d, m, gamma, rate, v, scratch, draw).value;
      grid <= o.scratch.Keys && StepReady(d, m, o.values, o.scratch)
  {
    var o := Step(d, m, gamma, rate, v, scratch, draw).value;
    if !d.InPlace() {
      var picked := if d.Samples() then Pick(m.states, draw) else m.states;
      SnapshotWrites(m, gamma, v, scratch, m.states, picked, |m.states|);
      assert m.states[..|m.states|] == m.states;
      assert grid + (set s | s in m.states) <= o.values.Keys;
      WithinGrows(m, grid + (set s | s in m.states), o.values.Keys, m.states);
    }
  }

  // ---------------------------------------------------------------------------------------------
  // The engine objects.

  /** The game the engines drive: its MDP and its value table `V`, which the engines reassign or update. */
  class Game<S(==,!new), A(==,!new)> {
    const mdp: Mdp<S, A>
    var V: map<S, real>

    constructor (mdp: Mdp<S, A>, V: map<S, real>)
      ensures this.mdp == mdp && this.V == V
    {
      this.mdp := mdp;
      this.V := V;
    }
  }

  class ValueIteration<S(==,!new), A(==,!new)> {
    const game: Game<S, A>
    const sampleRate: real
    const gamma: real
    const discipline: Discipline

    /** `IValueIteration.__init__`: the discount is fixed at 0.9 and the sample rate defaults to 1. */
    constructor (game: Game<S, A>, discipline: Discipline, sampleRate: real := 1.0)
      ensures this.game == game && this.discipline == discipline
      ensures this.sampleRate == sampleRate && gamma == 0.9
    {
      this.game := game;
      this.discipline := discipline;
      this.sampleRate := sampleRate;
      gamma := 0.9;
    }

    /** The innermost loop every `run` repeats: `val` for action `a`, reading `game.V`. */
    method ActionValue(s: S, a: A) returns (val: real)
      requires SuccessorsIn(game.mdp.transition(s, a), game.V)
      ensures val == Q(game.mdp, gamma, game.V, s, a)
    {
      var succ, t := game.mdp.transition(s, a), game.V;
      val := game.mdp.reward(s, a);
      for k := 0 to |succ|
        invariant val == game.mdp.reward(s, a) + SuccSum(succ[..k], gamma, 1.0, t)
      {
        var (sNext, p) := succ[k];
        assert succ[..k + 1][..k] == succ[..k];
        val := val + p * (gamma * t[sNext]);
      }
      assert succ[..|succ|] == succ;
    }

    /** The two inner loops every `run` repeats: `max_val` over the actions of `s`. */
    method BackupValue(s: S) returns (maxVal: real)
      requires ActionsClosed(game.mdp, game.V, s)
      ensures maxVal == Backup(game.mdp, gamma, game.V, s)
    {
      var acts := game.mdp.actions(s);
      maxVal := 0.0;
      for i := 0 to |acts|
        invariant maxVal == MaxQ(game.mdp, gamma, game.V, s, acts[..i])
      {
        assert acts[..i + 1][..i] == acts[..i];
        var val := ActionValue(s, acts[i]);
        maxVal := Max(maxVal, val);
      }
      assert acts[..|acts|] == acts;
    }

    /** The loop of the snapshot engines: back up the states of `picked` into `V_new`, reading `game.V`. */
    method SnapshotSweep(scratch: map<S, real>, picked: seq<S>) returns (delta: real, scratch': map<S, real>)
      requires Within(game.mdp, game.V.Keys, game.mdp.states)
      requires forall s :: s in game.mdp.states && s !in picked ==> s in scratch
      ensures Pass(scratch', delta) == SnapshotPass(game.mdp, gamma, game.V, scratch, game.mdp.states, picked, |game.mdp.states|)
    {
      var states := game.mdp.states;
      delta, scratch' := 0.0, scratch;
      for i := 0 to |states|
        invariant Pass(scratch', delta) == SnapshotPass(game.mdp, gamma, game.V, scratch, states, picked, i)
      {
        var s := states[i];
        if s in picked {
          var maxVal := BackupValue(s);
          scratch' := scratch'[s := maxVal];
        }
        delta := Max(delta, Abs(game.V[s] - scratch'[s]));
      }
    }

    /** The loop of the in-place engines: back up the states of `picked` in `game.V` itself, in state order. */
    method InPlaceSweep(picked: seq<S>) returns (delta: real)
      requires Within(game.mdp, game.V.Keys, game.mdp.states)
      modifies game
      ensures Pass(game.V, delta) == InPlacePass(game.mdp, gamma, old(game.V), game.mdp.states, picked, |game.mdp.states|)
    {
      var states, v0 := game.mdp.states, game.V;
      delta := 0.0;
      for i := 0 to |states|
        invariant Pass(game.V, delta) == InPlacePass(game.mdp, gamma, v0, states, picked, i)
      {
        var s := states[i];
        var v := game.V[s];
        if s in picked {
          var maxVal := BackupValue(s);
          game.V := game.V[s := maxVal];
        }
        delta := Max(delta, Abs(v - game.V[s]));
      }
    }

    /**
     * `run(V_new)` for this engine: the sampling engines draw `draw` first (and raise when the
     * sample size is out of range); the snapshot engines finish with `game.V = copy.deepcopy(V_new)`.
     * The result is `delta`, together with the scratch table as `run` leaves it.
     */
    method Run(scratch: map<S, real>, draw: seq<nat>) returns (r: Result<real, RunError>, scratch': map<S, real>)
      requires StepReady(discipline, game.mdp, game.V, scratch)
      requires DrawFits(discipline, sampleRate, |game.mdp.states|, draw)
      modifies game
      ensures var o := Step(discipline, game.mdp, gamma, sampleRate, old(game.V), scratch, draw);
        if o.Err? then r == Err(o.error) && scratch' == scratch && game.V == old(game.V)
        else r == Ok(o.value.delta) && scratch' == o.value.scratch && game.V == o.value.values
    {
      var states := game.mdp.states;
      if OutOfRange(discipline, sampleRate, |states|) {
        return Err(SampleSizeOutOfRange), scratch;
      }
      var picked := if discipline.Samples() then Pick(states, draw) else states;
      var delta;
      if discipline.InPlace() {
        delta := InPlaceSweep(picked);
        scratch' := scratch;
      } else {
        delta, scratch' := SnapshotSweep(scratch, picked);
        game.V := scratch';
      }
      r := Ok(delta);
    }
  }

  // ---------------------------------------------------------------------------------------------
  // `VISimulation.simulate`.

  /** `V_new = { state: 0 for state in itertools.product(range(5), range(5)) }`. */
  function ZeroGrid(): (r: map<(int, int), real>)
    ensures forall s :: s in r <==> s in MdpModels.GridStates(5)
    ensures forall s :: s in r ==> r[s] == 0.0
  {
    map s | s in MdpModels.GridStates(5) :: 0.0
  }

  /** Sweep `i` in the trace: from tables `v`, `scratch` with sample `draw` it returned `delta` and left `v'`, `scratch'`. */
  ghost predicate Link<S(!new), A(!new)>(vi: ValueIteration<S, A>, draw: seq<nat>, v: map<S, real>, scratch: map<S, real>, delta: real, v': map<S, real>, scratch': map<S, real>)
  {
    StepReady(vi.discipline, vi.game.mdp, v, scratch) &&
    DrawFits(vi.discipline, vi.sampleRate, |vi.game.mdp.states|, draw) &&
    Step(vi.discipline, vi.game.mdp, vi.gamma, vi.sampleRate, v, scratch, draw) == Ok(Outcome(delta, v', scratch'))
  }

  /** `tables[i]`, `scratches[i]` are `game.V` and `V_new` before sweep `i`, and sweep `i` returned `deltas[i]`. */
  ghost predicate Chain<S(!new), A(!new)>(vi: ValueIteration<S, A>, draws: nat -> seq<nat>, deltas: seq<real>, tables: seq<map<S, real>>, scratches: seq<map<S, real>>)
  {
    |tables| == |scratches| == |deltas| + 1 &&
    forall i :: 0 <= i < |deltas| ==> Link(vi, draws(i), tables[i], scratches[i], deltas[i], tables[i + 1], scratches[i + 1])
  }

  /** A further successful sweep extends the chain. */
  lemma ChainExtends<S(!new), A(!new)>(vi: ValueIteration<S, A>, draws: nat -> seq<nat>, deltas: seq<real>, tables: seq<map<S, real>>, scratches: seq<map<S, real>>, o: Outcome<S>)
    requires Chain(vi, draws, deltas, tables, scratches)
    requires StepReady(vi.discipline, vi.game.mdp, tables[|deltas|], scratches[|deltas|])
    requires DrawFits(vi.discipline, vi.sampleRate, |vi.game.mdp.states|, draws(|deltas|))
    requires Step(vi.discipline, vi.game.mdp, vi.gamma, vi.sampleRate, tables[|deltas|], scratches[|deltas|], draws(|deltas|)) == Ok(o)
    ensures Chain(vi, draws, deltas + [o.delta], tables + [o.values], scratches + [o.scratch])
  {
    var n := |deltas|;
    assert Link(vi, draws(n), tables[n], scratches[n], o.delta, o.values, o.scratch);
  }

  /** One turn of the `simulate` loop: a call of `run`, and the trace extended by the sweep it made. */
  method Advance<A(==,!new)>(vi: ValueIteration<(int, int), A>, draws: nat -> seq<nat>, iter: nat, scratch: map<(int, int), real>,
                             ghost deltas: seq<real>, ghost tables: seq<map<(int, int), real>>, ghost scratches: seq<map<(int, int), real>>, ghost grid: set<(int, int)>)
    returns (r: Result<real, RunError>, scratch': map<(int, int), real>, ghost tables': seq<map<(int, int), real>>, ghost scratches': seq<map<(int, int), real>>)
    requires iter == |deltas| && Chain(vi, draws, deltas, tables, scratches)
    requires tables[iter] == vi.game.V && scratches[iter] == scratch
    requires !vi.discipline.InPlace() ==> Within(vi.game.mdp, grid + (set s | s in vi.game.mdp.states), vi.game.mdp.states)
    requires grid <= scratch.Keys
    requires StepReady(vi.discipline, vi.game.mdp, vi.game.V, scratch)
    requires DrawFits(vi.discipline, vi.sampleRate, |vi.game.mdp.states|, draws(iter))
    modifies vi.game
    ensures r.Err? <==> OutOfRange(vi.discipline, vi.sampleRate, |vi.game.mdp.states|)
    ensures r.Err? ==> vi.game.V == old(vi.game.V)
    ensures r.Ok? ==> Chain(vi, draws, deltas + [r.value], tables', scratches')
    ensures r.Ok? ==> tables' == tables + [vi.game.V] && scratches' == scratches + [scratch']
    ensures r.Ok? ==> grid <= scratch'.Keys && StepReady(vi.discipline, vi.game.mdp, vi.game.V, scratch')
  {
    ghost var before := vi.game.V;
    r, scratch' := vi.Run(scratch, draws(iter));
    tables', scratches' := tables + [vi.game.V], scratches + [scratch'];
    if r.Ok? {
      ghost var o := Step(vi.discipline, vi.game.mdp, vi.gamma, vi.sampleRate, before, scratch, draws(iter));
      StepKeepsReady(vi.discipline, vi.game.mdp, vi.gamma, vi.sampleRate, before, scratch, draws(iter), grid);
      ChainExtends(vi, draws, deltas, tables, scratches, o.value);
    }
  }

  /**
   * `simulate(max_iter, theta)`: at most `max_iter` sweeps, stopping after the first whose delta is
   * below `theta`; sweep `i` uses sample `draws(i)`. `simulate` itself returns nothing: `res` stands
   * for its local list of deltas, which it prints the length of and plots, the sweeps' results in
   * order. The run fails at once when the engine samples and the sample size is out of range.
   */
  method Simulate<A(==,!new)>(vi: ValueIteration<(int, int), A>, maxIter: int, theta: real, draws: nat -> seq<nat>)
    returns (res: Result<seq<real>, RunError>, ghost tables: seq<map<(int, int), real>>, ghost scratches: seq<map<(int, int), real>>)
    requires Within(vi.game.mdp, vi.game.V.Keys, vi.game.mdp.states)
    requires !vi.discipline.InPlace() ==> Within(vi.game.mdp, ZeroGrid().Keys + (set s | s in vi.game.mdp.states), vi.game.mdp.states)
    requires vi.discipline == Random ==> forall s :: s in vi.game.mdp.states ==> s in ZeroGrid()
    requires forall i: nat :: DrawFits(vi.discipline, vi.sampleRate, |vi.game.mdp.states|, draws(i))
    modifies vi.game
    ensures res.Err? <==> maxIter > 0 && OutOfRange(vi.discipline, vi.sampleRate, |vi.game.mdp.states|)
    ensures res.Err? ==> vi.game.V == old(vi.game.V)
    ensures res.Ok? ==> Chain(vi, draws, res.value, tables, scratches)
    ensures res.Ok? ==> tables[0] == old(vi.game.V) && scratches[0] == ZeroGrid() && vi.game.V == tables[|res.value|]
    ensures res.Ok? ==> |res.value| <= (if maxIter < 0 then 0 else maxIter)
    ensures res.Ok? ==> forall i :: 0 <= i < |res.value| - 1 ==> res.value[i] >= theta
    ensures res.Ok? ==> |res.value| == (if maxIter < 0 then 0 else maxIter) || (res.value != [] && res.value[|res.value| - 1] < theta)
  {
    var deltas: seq<real> := [];
    var scratch := ZeroGrid();
    ghost var grid := scratch.Keys;
    tables, scratches := [vi.game.V], [scratch];
    var iter := 0;
    while iter < maxIter
      invariant iter == |deltas| <= (if maxIter < 0 then 0 else maxIter)
      invariant Chain(vi, draws, deltas, tables, scratches)
      invariant tables[0] == old(vi.game.V) && scratches[0] == ZeroGrid()
      invariant tables[iter] == vi.game.V && scratches[iter] == scratch
      invariant grid <= scratch.Keys && StepReady(vi.discipline, vi.game.mdp, vi.game.V, scratch)
      invariant iter > 0 ==> !OutOfRange(vi.discipline, vi.sampleRate, |vi.game.mdp.states|)
      invariant forall i :: 0 <= i < |deltas| ==> deltas[i] >= theta
      decreases maxIter - iter
    {
      var r, scratch';
      r, scratch', tables, scratches := Advance(vi, draws, iter, scratch, deltas, tables, scratches, grid);
      if r.Err? {
        return Err(r.error), tables, scratches;
      }
      deltas := deltas + [r.value];
      scratch := scratch';
      if r.value < theta {
        return Ok(deltas), tables, scratches;
      }
      iter := iter + 1;
    }
    res := Ok(deltas);
  }
}
