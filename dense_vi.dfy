/**
 * The dense-matrix engines: states and actions are indices, `rewards[s]` is the reward of a state,
 * `probs[s][s_next][a]` the probability of reaching `s_next` from `s` under `a`, and the value
 * table `V` is a list indexed by state. A backup sums over a list of successors: every state for
 * the deterministic engines, only the sampled states for the sampling ones.
 */
module DenseVI {
  import opened Wrappers
  import opened ValueTables
  import MdpModels
  import opened DeprecatedVI

  /** The game data the dense engines read; the value table lives in `DenseGame.V`. */
  datatype Dense = Dense(states: seq<int>, actions: seq<int>, rewards: seq<real>, probs: seq<seq<seq<real>>>, gamma: real)

  /** `rewards[s]` and `probs[s][s_next][a]` exist for every successor in `succs` and every action, and `V[s_next]` in a table of length `n`. */
  predicate Fits(g: Dense, n: nat, s: int, succs: seq<int>)
  {
    0 <= s < |g.rewards| && s < |g.probs| &&
    (forall t :: t in succs ==> 0 <= t < n && t < |g.probs[s]|) &&
    (forall t, a :: t in succs && a in g.actions ==> 0 <= a < |g.probs[s][t]|)
  }

  /** A list of successors drawn from a fitting one fits too. */
  lemma FitsWithin(g: Dense, n: nat, s: int, succs: seq<int>, sub: seq<int>)
    requires Fits(g, n, s, succs)
    requires forall t :: t in sub ==> t in succs
    ensures Fits(g, n, s, sub)
  {
  }

  /** Σ `probs[s][s_next][a] * (gamma * V[s_next])` over `succs`, left to right. */
  function Expect(g: Dense, v: seq<real>, s: int, a: int, succs: seq<int>): real
    requires Fits(g, |v|, s, succs) && a in g.actions
    decreases |succs|
  {
    if succs == [] then 0.0
    else
      var prefix, last := succs[..|succs| - 1], succs[|succs| - 1];
      assert forall t :: t in prefix ==> t in succs;
      assert last in succs;
      Expect(g, v, s, a, prefix) + g.probs[s][last][a] * (g.gamma * v[last])
  }

  /** `max_val` after the actions of `acts`: it starts at 0 and takes the maximum with `rewards[s] + Expect`. */
  function MaxOver(g: Dense, v: seq<real>, s: int, acts: seq<int>, succs: seq<int>): (r: real)
    requires Fits(g, |v|, s, succs) && forall a :: a in acts ==> a in g.actions
    ensures r >= 0.0
    ensures forall a :: a in acts ==> r >= g.rewards[s] + Expect(g, v, s, a, succs)
    ensures r == 0.0 || exists a :: a in acts && r == g.rewards[s] + Expect(g, v, s, a, succs)
    decreases |acts|
  {
    if acts == [] then 0.0
    else
      var prefix, last := acts[..|acts| - 1], acts[|acts| - 1];
      assert forall a :: a in acts ==> a in prefix || a == last;
      assert forall a :: a in prefix ==> a in acts;
      Max(MaxOver(g, v, s, prefix, succs), g.rewards[s] + Expect(g, v, s, last, succs))
  }

  /** The dense backup of state `s`: max(0, max over all actions of `rewards[s] + Expect`). */
  function DenseBackup(g: Dense, v: seq<real>, s: int, succs: seq<int>): real
    requires Fits(g, |v|, s, succs)
  {
    MaxOver(g, v, s, g.actions, succs)
  }

  /** The sweep so far: the list it writes and the running `delta`. */
  datatype Sweep = Sweep(table: seq<real>, delta: real)

  /** Every state of `visit` indexes the table `v` and the scratch list, and fits the game against `succs`. */
  predicate Covers(g: Dense, v: seq<real>, scratchLength: nat, visit: seq<int>, succs: seq<int>)
  {
    forall s :: s in visit ==> 0 <= s < |v| && s < scratchLength && Fits(g, |v|, s, succs)
  }

  /**
   * The sweep of `ClassicValueIteration` and `RandomValueIteration`: each state of `visit` is
   * backed up against the unchanged table `v` into the scratch list, and its change against `v`
   * enters the running maximum.
   */
  function SnapshotFold(g: Dense, v: seq<real>, scratch: seq<real>, visit: seq<int>, succs: seq<int>): (r: Sweep)
    requires Covers(g, v, |scratch|, visit, succs)
    ensures |r.table| == |scratch| && r.delta >= 0.0
    decreases |visit|
  {
    if visit == [] then Sweep(scratch, 0.0)
    else
      var prefix, s := visit[..|visit| - 1], visit[|visit| - 1];
      assert forall t :: t in prefix ==> t in visit;
      var prev := SnapshotFold(g, v, scratch, prefix, succs);
      var x := DenseBackup(g, v, s, succs);
      Sweep(prev.table[s := x], Max(prev.delta, Abs(v[s] - x)))
  }

  /**
   * The sweep of `CyclicValueIteration` and `RandomCyclicValueIteration`: each state of `visit` is
   * backed up in place, reading what earlier states of the sweep have just written, and its change
   * against its value on arrival enters the running maximum.
   */
  function InPlaceFold(g: Dense, v: seq<real>, visit: seq<int>, succs: seq<int>): (r: Sweep)
    requires Covers(g, v, |v|, visit, succs)
    ensures |r.table| == |v| && r.delta >= 0.0
    decreases |visit|
  {
    if visit == [] then Sweep(v, 0.0)
    else
      var prefix, s := visit[..|visit| - 1], visit[|visit| - 1];
      assert forall t :: t in prefix ==> t in visit;
      var prev := InPlaceFold(g, v, prefix, succs);
      var x := DenseBackup(g, prev.table, s, succs);
      Sweep(prev.table[s := x], Max(prev.delta, Abs(prev.table[s] - x)))
  }

  /** A prefix of a covered visiting order is covered. */
  lemma CoversPrefix(g: Dense, v: seq<real>, scratchLength: nat, visit: seq<int>, succs: seq<int>, n: nat)
    requires Covers(g, v, scratchLength, visit, succs) && n <= |visit|
    ensures Covers(g, v, scratchLength, visit[..n], succs)
  {
    forall t | t in visit[..n]
      ensures 0 <= t < |v| && t < scratchLength && Fits(g, |v|, t, succs)
    {
      assert t in visit;
    }
  }

  /** One more state of a snapshot sweep. */
  lemma SnapshotFoldNext(g: Dense, v: seq<real>, scratch: seq<real>, visit: seq<int>, succs: seq<int>, i: nat)
    requires Covers(g, v, |scratch|, visit, succs) && i < |visit|
    ensures Covers(g, v, |scratch|, visit[..i], succs) && Covers(g, v, |scratch|, visit[..i + 1], succs)
    ensures var prev := SnapshotFold(g, v, scratch, visit[..i], succs);
      var s := visit[i];
      0 <= s < |v| && s < |scratch| && Fits(g, |v|, s, succs) &&
      SnapshotFold(g, v, scratch, visit[..i + 1], succs) ==
        (var x := DenseBackup(g, v, s, succs); Sweep(prev.table[s := x], Max(prev.delta, Abs(v[s] - x))))
  {
    CoversPrefix(g, v, |scratch|, visit, succs, i);
    CoversPrefix(g, v, |scratch|, visit, succs, i + 1);
    assert visit[..i + 1][..i] == visit[..i] && visit[..i + 1][i] == visit[i];
    assert visit[i] in visit;
  }

  /** One more state of an in-place sweep. */
  lemma InPlaceFoldNext(g: Dense, v: seq<real>, visit: seq<int>, succs: seq<int>, i: nat)
    requires Covers(g, v, |v|, visit, succs) && i < |visit|
    ensures Covers(g, v, |v|, visit[..i], succs) && Covers(g, v, |v|, visit[..i + 1], succs)
    ensures var prev := InPlaceFold(g, v, visit[..i], succs);
      var s := visit[i];
      0 <= s < |prev.table| && Fits(g, |prev.table|, s, succs) &&
      InPlaceFold(g, v, visit[..i + 1], succs) ==
        (var x := DenseBackup(g, prev.table, s, succs); Sweep(prev.table[s := x], Max(prev.delta, Abs(prev.table[s] - x))))
  {
    CoversPrefix(g, v, |v|, visit, succs, i);
    CoversPrefix(g, v, |v|, visit, succs, i + 1);
    assert visit[..i + 1][..i] == visit[..i] && visit[..i + 1][i] == visit[i];
    assert visit[i] in visit;
  }

  /** A snapshot sweep writes the backup against `v` at every visited state and nothing elsewhere. */
  lemma {:induction false} SnapshotFoldWrites(g: Dense, v: seq<real>, scratch: seq<real>, visit: seq<int>, succs: seq<int>)
    requires Covers(g, v, |scratch|, visit, succs)
    ensures var t := SnapshotFold(g, v, scratch, visit, succs).table;
      forall i :: 0 <= i < |t| ==> t[i] == if i in visit then DenseBackup(g, v, i, succs) else scratch[i]
    decreases |visit|
  {
    if visit != [] {
      var prefix := visit[..|visit| - 1];
      assert forall t :: t in prefix ==> t in visit;
      assert forall t :: t in visit ==> t in prefix || t == visit[|visit| - 1];
      SnapshotFoldWrites(g, v, scratch, prefix, succs);
    }
  }

  /** The `delta` of a snapshot sweep is the largest |v[s] - backup(s)| over the visited states, or 0 when none is visited. */
  lemma {:induction false} SnapshotFoldDelta(g: Dense, v: seq<real>, scratch: seq<real>, visit: seq<int>, succs: seq<int>)
    requires Covers(g, v, |scratch|, visit, succs)
    ensures var d := SnapshotFold(g, v, scratch, visit, succs).delta;
      (forall s :: s in visit ==> d >= Abs(v[s] - DenseBackup(g, v, s, succs))) &&
      ((visit == [] && d == 0.0) || exists s :: s in visit && d == Abs(v[s] - DenseBackup(g, v, s, succs)))
    decreases |visit|
  {
    if visit != [] {
      var prefix := visit[..|visit| - 1];
      assert forall t :: t in prefix ==> t in visit;
      assert forall t :: t in visit ==> t in prefix || t == visit[|visit| - 1];
      SnapshotFoldDelta(g, v, scratch, prefix, succs);
    }
  }

  /** An in-place sweep leaves every unvisited state as it was. */
  lemma {:induction false} InPlaceFoldUnvisited(g: Dense, v: seq<real>, visit: seq<int>, succs: seq<int>)
    requires Covers(g, v, |v|, visit, succs)
    ensures var t := InPlaceFold(g, v, visit, succs).table;
      forall i :: 0 <= i < |t| && i !in visit ==> t[i] == v[i]
    decreases |visit|
  {
    if visit != [] {
      var prefix := visit[..|visit| - 1];
      assert forall t :: t in prefix ==> t in visit;
      InPlaceFoldUnvisited(g, v, prefix, succs);
    }
  }

  /** The table an in-place sweep has built when it reaches the `k`-th state of `visit`. */
  function Arrival(g: Dense, v: seq<real>, visit: seq<int>, succs: seq<int>, k: nat): (r: seq<real>)
    requires Covers(g, v, |v|, visit, succs) && k <= |visit|
    ensures |r| == |v|
  {
    CoversPrefix(g, v, |v|, visit, succs, k);
    InPlaceFold(g, v, visit[..k], succs).table
  }

  /**
   * Over distinct states, an in-place sweep leaves at each visited state the backup computed
   * against the table as it stood when the sweep reached that state: later states never overwrite it.
   */
  lemma InPlaceFoldKeepsEarlier(g: Dense, v: seq<real>, visit: seq<int>, succs: seq<int>)
    requires Covers(g, v, |v|, visit, succs) && MdpModels.Distinct(visit)
    ensures var t := InPlaceFold(g, v, visit, succs).table;
      forall k :: 0 <= k < |visit| ==>
        0 <= visit[k] < |t| && t[visit[k]] == DenseBackup(g, Arrival(g, v, visit, succs, k), visit[k], succs)
  {
    forall k | 0 <= k < |visit|
      ensures 0 <= visit[k] < |v|
      ensures InPlaceFold(g, v, visit, succs).table[visit[k]] == DenseBackup(g, Arrival(g, v, visit, succs, k), visit[k], succs)
    {
      InPlaceFoldKeepsAt(g, v, visit, succs, k);
    }
  }

  /** The `k`-th visited state of a distinct in-place sweep keeps the backup it was given on arrival. */
  lemma {:induction false} InPlaceFoldKeepsAt(g: Dense, v: seq<real>, visit: seq<int>, succs: seq<int>, k: nat)
    requires Covers(g, v, |v|, visit, succs) && MdpModels.Distinct(visit) && k < |visit|
    ensures 0 <= visit[k] < |v| && Fits(g, |v|, visit[k], succs)
    ensures InPlaceFold(g, v, visit, succs).table[visit[k]] == DenseBackup(g, Arrival(g, v, visit, succs, k), visit[k], succs)
    decreases |visit|
  {
    var n := |visit| - 1;
    assert visit[k] in visit;
    CoversPrefix(g, v, |v|, visit, succs, n);
    if k < n {
      InPlaceFoldKeepsAt(g, v, visit[..n], succs, k);
      InPlaceFoldLaterTurn(g, v, visit, succs, k);
    }
  }

  /** The last turn of a distinct in-place sweep neither overwrites nor changes the arrival of an earlier state. */
  lemma InPlaceFoldLaterTurn(g: Dense, v: seq<real>, visit: seq<int>, succs: seq<int>, k: nat)
    requires Covers(g, v, |v|, visit, succs) && MdpModels.Distinct(visit) && k < |visit| - 1
    requires Covers(g, v, |v|, visit[..|visit| - 1], succs)
    ensures 0 <= visit[k] < |v|
    ensures InPlaceFold(g, v, visit, succs).table[visit[k]] == InPlaceFold(g, v, visit[..|visit| - 1], succs).table[visit[k]]
    ensures Arrival(g, v, visit, succs, k) == Arrival(g, v, visit[..|visit| - 1], succs, k)
  {
    var n := |visit| - 1;
    assert visit[k] in visit;
    assert visit[k] != visit[n];
    assert visit[..n][..k] == visit[..k];
  }

  /** `d` is the largest change from `v` to `t` at a state of `visit`, or 0 when `visit` is empty. */
  predicate LargestChange(v: seq<real>, t: seq<real>, visit: seq<int>, d: real)
  {
    (forall s :: s in visit ==> 0 <= s < |v| && s < |t| && d >= Abs(v[s] - t[s])) &&
    ((visit == [] && d == 0.0) || exists s :: s in visit && 0 <= s < |v| && s < |t| && d == Abs(v[s] - t[s]))
  }

  /**
   * Writing `x` at the last state of `visit`, not visited before, and raising the maximum by its
   * change extends the largest change from the rest of `visit` to all of it.
   */
  lemma LargestChangeExtend(v: seq<real>, q: seq<real>, visit: seq<int>, d: real, x: real)
    requires visit != [] && |q| == |v|
    requires var last := visit[|visit| - 1];
      0 <= last < |v| && q[last] == v[last] && last !in visit[..|visit| - 1]
    requires LargestChange(v, q, visit[..|visit| - 1], d)
    ensures var last := visit[|visit| - 1];
      LargestChange(v, q[last := x], visit, Max(d, Abs(v[last] - x)))
  {
    var p, last := visit[..|visit| - 1], visit[|visit| - 1];
    var t := q[last := x];
    assert forall s :: s in visit ==> s in p || s == last;
    if p != [] {
      var w :| w in p && 0 <= w < |v| && w < |q| && d == Abs(v[w] - q[w]);
      assert w in visit && t[w] == q[w];
    }
    assert last in visit;
  }

  /**
   * Over distinct states, the `delta` of an in-place sweep is the largest change it makes at a
   * visited state, or 0 when none is visited.
   */
  lemma {:induction false} InPlaceFoldDelta(g: Dense, v: seq<real>, visit: seq<int>, succs: seq<int>)
    requires Covers(g, v, |v|, visit, succs) && MdpModels.Distinct(visit)
    ensures var r := InPlaceFold(g, v, visit, succs); LargestChange(v, r.table, visit, r.delta)
    decreases |visit|
  {
    if visit != [] {
      var n := |visit| - 1;
      var prefix, last := visit[..n], visit[n];
      CoversPrefix(g, v, |v|, visit, succs, n);
      InPlaceFoldDelta(g, v, prefix, succs);
      InPlaceFoldUnvisited(g, v, prefix, succs);
      var q := InPlaceFold(g, v, prefix, succs);
      LargestChangeExtend(v, q.table, visit, q.delta, DenseBackup(g, q.table, last, succs));
    }
  }

  // ---------------------------------------------------------------------------------------------
  // One call of `run`.

  /** The states a sweep visits, which are also the successors its backups sum over. */
  function Visit(d: Discipline, g: Dense, rate: real, draw: seq<nat>): seq<int>
    requires DrawFits(d, rate, |g.states|, draw) && !OutOfRange(d, rate, |g.states|)
  {
    if d.Samples() then Pick(g.states, draw) else g.states
  }

  /** What `run` needs not to raise IndexError: the visited states index `V`, `V_new` (when written) and the game data. */
  predicate DenseReady(d: Discipline, g: Dense, rate: real, v: seq<real>, scratchLength: nat, draw: seq<nat>)
  {
    DrawFits(d, rate, |g.states|, draw) &&
    (!OutOfRange(d, rate, |g.states|) ==>
      var visit := Visit(d, g, rate, draw);
      Covers(g, v, if d.InPlace() then |v| else scratchLength, visit, visit))
  }

  /** What a sweep leaves: its `delta`, the new contents of `game.V` and of `V_new`. */
  datatype DenseOutcome = DenseOutcome(delta: real, values: seq<real>, scratch: seq<real>)

  /**
   * One call of `run` on table `v` and scratch list `scratch` with sample `draw`. `ClassicVI`
   * leaves `game.V` bound to `V_new`, so both hold the new list; `RandomVI` fills `V_new` and leaves
   * `game.V` as it was; the in-place engines ignore `V_new`.
   */
  function DenseStep(d: Discipline, g: Dense, rate: real, v: seq<real>, scratch: seq<real>, draw: seq<nat>): (r: Result<DenseOutcome, RunError>)
    requires DenseReady(d, g, rate, v, |scratch|, draw)
    ensures r.Err? <==> OutOfRange(d, rate, |g.states|)
    ensures r.Ok? ==> r.value.delta >= 0.0
    ensures r.Ok? && d == Classic ==> r.value.values == r.value.scratch
    ensures r.Ok? && d == Random ==> r.value.values == v
    ensures r.Ok? && d.InPlace() ==> r.value.scratch == scratch && |r.value.values| == |v|
  {
    if OutOfRange(d, rate, |g.states|) then Err(SampleSizeOutOfRange)
    else
      var visit := Visit(d, g, rate, draw);
      if d.InPlace() then
        var p := InPlaceFold(g, v, visit, visit);
        Ok(DenseOutcome(p.delta, p.table, scratch))
      else
        var p := SnapshotFold(g, v, scratch, visit, visit);
        Ok(DenseOutcome(p.delta, if d == Classic then p.table else v, p.table))
  }

  /** `RandomVI` never changes `game.V`: `V = V_new` only rebinds a local name. */
  lemma RandomLeavesValues(g: Dense, rate: real, v: seq<real>, scratch: seq<real>, draw: seq<nat>)
    requires DenseReady(Random, g, rate, v, |scratch|, draw)
    ensures DenseStep(Random, g, rate, v, scratch, draw).Ok? ==> DenseStep(Random, g, rate, v, scratch, draw).value.values == v
  {
  }

  /**
   * The snapshot engines back every visited state up against the old table, sum only over the
   * visited states, and report the largest change they compute; unvisited entries of `V_new` keep
   * their value.
   */
  lemma SnapshotStep(d: Discipline, g: Dense, rate: real, v: seq<real>, scratch: seq<real>, draw: seq<nat>)
    requires !d.InPlace() && DenseReady(d, g, rate, v, |scratch|, draw)
    requires !OutOfRange(d, rate, |g.states|)
    ensures var o := DenseStep(d, g, rate, v, scratch, draw).value;
      var visit := Visit(d, g, rate, draw);
      (forall i :: 0 <= i < |scratch| ==> o.scratch[i] == if i in visit then DenseBackup(g, v, i, visit) else scratch[i]) &&
      (forall s :: s in visit ==> o.delta >= Abs(v[s] - DenseBackup(g, v, s, visit))) &&
      ((visit == [] && o.delta == 0.0) || exists s :: s in visit && o.delta == Abs(v[s] - DenseBackup(g, v, s, visit)))
  {
    var visit := Visit(d, g, rate, draw);
    SnapshotFoldWrites(g, v, scratch, visit, visit);
    SnapshotFoldDelta(g, v, scratch, visit, visit);
  }

  /** Over distinct states a sweep visits distinct states: `random.sample` draws distinct positions. */
  lemma VisitDistinct(d: Discipline, g: Dense, rate: real, draw: seq<nat>)
    requires DrawFits(d, rate, |g.states|, draw) && !OutOfRange(d, rate, |g.states|)
    requires MdpModels.Distinct(g.states)
    ensures MdpModels.Distinct(Visit(d, g, rate, draw))
  {
    if d.Samples() {
      var p := Pick(g.states, draw);
      forall i, j | 0 <= i < j < |p| ensures p[i] != p[j] {
        assert draw[i] != draw[j];
      }
    }
  }

  /**
   * The in-place engines change only the states they visit: every state for `CyclicVI`, the sample
   * for `RandomCyclicVI`. Over distinct states each visited state holds the backup computed on its
   * arrival, and the delta is the largest change the sweep makes to `game.V`, or 0.
   */
  lemma InPlaceStep(d: Discipline, g: Dense, rate: real, v: seq<real>, scratch: seq<real>, draw: seq<nat>)
    requires d.InPlace() && DenseReady(d, g, rate, v, |scratch|, draw)
    requires !OutOfRange(d, rate, |g.states|)
    ensures var o := DenseStep(d, g, rate, v, scratch, draw).value;
      forall i :: 0 <= i < |v| && i !in Visit(d, g, rate, draw) ==> o.values[i] == v[i]
    ensures var o := DenseStep(d, g, rate, v, scratch, draw).value;
      var visit := Visit(d, g, rate, draw);
      MdpModels.Distinct(g.states) ==>
        LargestChange(v, o.values, visit, o.delta) &&
        forall k :: 0 <= k < |visit| ==>
          0 <= visit[k] < |o.values| && o.values[visit[k]] == DenseBackup(g, Arrival(g, v, visit, visit, k), visit[k], visit)
  {
    var visit := Visit(d, g, rate, draw);
    InPlaceFoldUnvisited(g, v, visit, visit);
    if MdpModels.Distinct(g.states) {
      VisitDistinct(d, g, rate, draw);
      InPlaceFoldDelta(g, v, visit, visit);
      InPlaceFoldKeepsEarlier(g, v, visit, visit);
    }
  }

  // ---------------------------------------------------------------------------------------------
  // The engine objects.

  /** The game the dense engines drive: its data and its value list `V`, which `ClassicVI` rebinds. */
  class DenseGame {
    const data: Dense
    var V: array<real>

    constructor (data: Dense, V: array<real>)
      ensures this.data == data && this.V == V
    {
      this.data := data;
      this.V := V;
    }
  }

  class DenseValueIteration {
    const game: DenseGame
    const sampleRate: real
    const discipline: Discipline

    /** `IValueIteration.__init__`: the sample rate defaults to 1; the discount is the game's. */
    constructor (game: DenseGame, discipline: Discipline, sampleRate: real := 1.0)
      ensures this.game == game && this.discipline == discipline && this.sampleRate == sampleRate
    {
      this.game := game;
      this.discipline := discipline;
      this.sampleRate := sampleRate;
    }

    /** The innermost loop of every `run`: `val` for action `a`, summing over `succs`. */
    method ActionValue(s: int, a: int, succs: seq<int>) returns (val: real)
      requires Fits(game.data, game.V.Length, s, succs) && a in game.data.actions
      ensures val == game.data.rewards[s] + Expect(game.data, game.V[..], s, a, succs)
    {
      var g, v := game.data, game.V;
      val := g.rewards[s];
      for k := 0 to |succs|
        invariant Fits(g, v.Length, s, succs[..k])
        invariant val == g.rewards[s] + Expect(g, v[..], s, a, succs[..k])
      {
        var next := succs[k];
        assert next in succs && succs[..k + 1][..k] == succs[..k];
        FitsWithin(g, v.Length, s, succs, succs[..k + 1]);
        val := val + g.probs[s][next][a] * (g.gamma * v[next]);
      }
      assert succs[..|succs|] == succs;
    }

    /** The two inner loops of every `run`: `max_val` over `game.actions`. */
    method BackupValue(s: int, succs: seq<int>) returns (maxVal: real)
      requires Fits(game.data, game.V.Length, s, succs)
      ensures maxVal == DenseBackup(game.data, game.V[..], s, succs)
    {
      var g := game.data;
      maxVal := 0.0;
      for i := 0 to |g.actions|
        invariant maxVal == MaxOver(g, game.V[..], s, g.actions[..i], succs)
      {
        assert g.actions[i] in g.actions && g.actions[..i + 1][..i] == g.actions[..i];
        var val := ActionValue(s, g.actions[i], succs);
        maxVal := Max(maxVal, val);
      }
      assert g.actions[..|g.actions|] == g.actions;
    }

    /** The loop of the snapshot engines: write the backups of `visit` into `V_new`, reading `game.V`. */
    method SnapshotSweep(scratch: array<real>, visit: seq<int>) returns (delta: real)
      requires scratch != game.V
      requires Covers(game.data, game.V[..], scratch.Length, visit, visit)
      modifies scratch
      ensures Sweep(scratch[..], delta) == SnapshotFold(game.data, game.V[..], old(scratch[..]), visit, visit)
    {
      var g, v := game.data, game.V;
      delta := 0.0;
      for i := 0 to |visit|
        invariant Covers(g, v[..], scratch.Length, visit[..i], visit)
        invariant Sweep(scratch[..], delta) == SnapshotFold(g, v[..], old(scratch[..]), visit[..i], visit)
      {
        var s := visit[i];
        SnapshotFoldNext(g, v[..], old(scratch[..]), visit, visit, i);
        var maxVal := BackupValue(s, visit);
        scratch[s] := maxVal;
        delta := Max(delta, Abs(v[s] - scratch[s]));
      }
      assert visit[..|visit|] == visit;
    }

    /** The loop of the in-place engines: write the backups of `visit` into `game.V` itself, in visiting order. */
    method InPlaceSweep(visit: seq<int>) returns (delta: real)
      requires Covers(game.data, game.V[..], game.V.Length, visit, visit)
      modifies game.V
      ensures Sweep(game.V[..], delta) == InPlaceFold(game.data, old(game.V[..]), visit, visit)
    {
      var g, v := game.data, game.V;
      delta := 0.0;
      for i := 0 to |visit|
        invariant Covers(g, old(v[..]), v.Length, visit[..i], visit)
        invariant Sweep(v[..], delta) == InPlaceFold(g, old(v[..]), visit[..i], visit)
      {
        var s := visit[i];
        InPlaceFoldNext(g, old(v[..]), visit, visit, i);
        ghost var prev := v[..];
        var before := v[s];
        var maxVal := BackupValue(s, visit);
        v[s] := maxVal;
        delta := Max(delta, Abs(before - v[s]));
        assert v[..] == prev[s := maxVal];
      }
      assert visit[..|visit|] == visit;
    }

    /**
     * `run(V_new)` for this engine. The sampling engines draw `draw` first and raise when the
     * sample size is out of range; `ClassicVI` ends with `game.V = V_new`, binding the game to the
     * scratch list itself.
     */
    method Run(scratch: array<real>, draw: seq<nat>) returns (r: Result<real, RunError>)
      requires scratch != game.V
      requires DenseReady(discipline, game.data, sampleRate, game.V[..], scratch.Length, draw)
      modifies game, game.V, scratch
      ensures var o := DenseStep(discipline, game.data, sampleRate, old(game.V[..]), old(scratch[..]), draw);
        if o.Err? then r == Err(o.error) && game.V == old(game.V) && game.V[..] == old(game.V[..]) && scratch[..] == old(scratch[..])
        else r == Ok(o.value.delta) && game.V[..] == o.value.values && scratch[..] == o.value.scratch
      ensures game.V == if discipline == Classic && r.Ok? then scratch else old(game.V)
    {
      var g := game.data;
      if OutOfRange(discipline, sampleRate, |g.states|) {
        return Err(SampleSizeOutOfRange);
      }
      var visit := if discipline.Samples() then Pick(g.states, draw) else g.states;
      var delta;
      if discipline.InPlace() {
        delta := InPlaceSweep(visit);
      } else {
        delta := SnapshotSweep(scratch, visit);
        if discipline == Classic {
          game.V := scratch;
        }
      }
      r := Ok(delta);
    }
  }

  // ---------------------------------------------------------------------------------------------
  // `VISimulation.simulate`.

  /** `[0, 0, 0, 0, 0]`. */
  function Zeros(): (r: seq<real>)
    ensures |r| == 5 && forall i :: 0 <= i < 5 ==> r[i] == 0.0
  {
    [0.0, 0.0, 0.0, 0.0, 0.0]
  }

  /** Sweep `i` of the trace: from `game.V` = `v` and a fresh zero `V_new`, it returned `delta` and left `game.V` = `v'`. */
  ghost predicate DenseLink(vi: DenseValueIteration, draw: seq<nat>, v: seq<real>, delta: real, v': seq<real>)
  {
    DenseReady(vi.discipline, vi.game.data, vi.sampleRate, v, 5, draw) &&
    var o := DenseStep(vi.discipline, vi.game.data, vi.sampleRate, v, Zeros(), draw);
    o.Ok? && o.value.delta == delta && o.value.values == v'
  }

  /** `tables[i]` is the contents of `game.V` before sweep `i`, and sweep `i` returned `deltas[i]`. */
  ghost predicate DenseChain(vi: DenseValueIteration, draws: nat -> seq<nat>, deltas: seq<real>, tables: seq<seq<real>>)
  {
    |tables| == |deltas| + 1 &&
    forall i :: 0 <= i < |deltas| ==> DenseLink(vi, draws(i), tables[i], deltas[i], tables[i + 1])
  }

  /** Under `RandomVI` the trace never moves: every sweep starts from the table `simulate` began with. */
  lemma {:induction false} RandomStalls(vi: DenseValueIteration, draws: nat -> seq<nat>, deltas: seq<real>, tables: seq<seq<real>>, i: nat)
    requires vi.discipline == Random && DenseChain(vi, draws, deltas, tables)
    requires i < |tables|
    ensures tables[i] == tables[0]
  {
    if i > 0 {
      RandomStalls(vi, draws, deltas, tables, i - 1);
      assert DenseLink(vi, draws(i - 1), tables[i - 1], deltas[i - 1], tables[i]);
    }
  }

  /** When every sweep fits a length-5 scratch list, the table each sweep leaves is ready for the next draw. */
  lemma DenseStepKeepsReady(vi: DenseValueIteration, v: seq<real>, draw: seq<nat>, draw': seq<nat>)
    requires DenseReady(vi.discipline, vi.game.data, vi.sampleRate, v, 5, draw)
    requires DenseReady(vi.discipline, vi.game.data, vi.sampleRate, v, 5, draw')
    requires !OutOfRange(vi.discipline, vi.sampleRate, |vi.game.data.states|)
    ensures var o := DenseStep(vi.discipline, vi.game.data, vi.sampleRate, v, Zeros(), draw).value;
      DenseReady(vi.discipline, vi.game.data, vi.sampleRate, o.values, 5, draw')
  {
  }

  /** One turn of the `simulate` loop: a fresh `V_new`, a call of `run`, and the trace extended by it. */
  method DenseAdvance(vi: DenseValueIteration, draws: nat -> seq<nat>, iter: nat, ghost deltas: seq<real>, ghost tables: seq<seq<real>>)
    returns (r: Result<real, RunError>, ghost tables': seq<seq<real>>)
    requires iter == |deltas| && DenseChain(vi, draws, deltas, tables) && tables[iter] == vi.game.V[..]
    requires forall i: nat :: DenseReady(vi.discipline, vi.game.data, vi.sampleRate, vi.game.V[..], 5, draws(i))
    modifies vi.game, vi.game.V
    ensures r.Err? <==> OutOfRange(vi.discipline, vi.sampleRate, |vi.game.data.states|)
    ensures r.Err? ==> vi.game.V == old(vi.game.V) && vi.game.V[..] == old(vi.game.V[..])
    ensures vi.game.V == old(vi.game.V) || fresh(vi.game.V)
    ensures r.Ok? ==> DenseChain(vi, draws, deltas + [r.value], tables') && tables' == tables + [vi.game.V[..]]
    ensures r.Ok? ==> forall i: nat :: DenseReady(vi.discipline, vi.game.data, vi.sampleRate, vi.game.V[..], 5, draws(i))
  {
    var scratch := new real[5](_ => 0.0);
    assert scratch[..] == Zeros();
    ghost var before := vi.game.V[..];
    r := vi.Run(scratch, draws(iter));
    tables' := tables + [vi.game.V[..]];
    if r.Ok? {
      assert DenseLink(vi, draws(iter), tables[iter], r.value, vi.game.V[..]);
      forall i: nat ensures DenseReady(vi.discipline, vi.game.data, vi.sampleRate, vi.game.V[..], 5, draws(i)) {
        DenseStepKeepsReady(vi, before, draws(iter), draws(i));
      }
    }
  }

  /**
   * `simulate(max_iter, theta)`: at most `max_iter` sweeps, each with a fresh zero `V_new`,
   * stopping after the first whose delta is below `theta`; sweep `i` uses sample `draws(i)`.
   */
  method DenseSimulate(vi: DenseValueIteration, maxIter: int, theta: real, draws: nat -> seq<nat>)
    returns (res: Result<seq<real>, RunError>, ghost tables: seq<seq<real>>)
    requires forall i: nat :: DenseReady(vi.discipline, vi.game.data, vi.sampleRate, vi.game.V[..], 5, draws(i))
    modifies vi.game, vi.game.V
    ensures res.Err? <==> maxIter > 0 && OutOfRange(vi.discipline, vi.sampleRate, |vi.game.data.states|)
    ensures res.Err? ==> vi.game.V == old(vi.game.V) && vi.game.V[..] == old(vi.game.V[..])
    ensures vi.game.V == old(vi.game.V) || fresh(vi.game.V)
    ensures res.Ok? ==> DenseChain(vi, draws, res.value, tables) && tables[0] == old(vi.game.V[..]) && vi.game.V[..] == tables[|res.value|]
    ensures res.Ok? ==> |res.value| <= (if maxIter < 0 then 0 else maxIter)
    ensures res.Ok? ==> forall i :: 0 <= i < |res.value| - 1 ==> res.value[i] >= theta
    ensures res.Ok? ==> |res.value| == (if maxIter < 0 then 0 else maxIter) || (res.value != [] && res.value[|res.value| - 1] < theta)
  {
    var deltas: seq<real> := [];
    tables := [vi.game.V[..]];
    var iter := 0;
    while iter < maxIter
      invariant iter == |deltas| <= (if maxIter < 0 then 0 else maxIter)
      invariant DenseChain(vi, draws, deltas, tables) && tables[0] == old(vi.game.V[..]) && tables[iter] == vi.game.V[..]
      invariant vi.game.V == old(vi.game.V) || fresh(vi.game.V)
      invariant iter == 0 ==> vi.game.V == old(vi.game.V) && vi.game.V[..] == old(vi.game.V[..])
      invariant forall i: nat :: DenseReady(vi.discipline, vi.game.data, vi.sampleRate, vi.game.V[..], 5, draws(i))
      invariant iter > 0 ==> !OutOfRange(vi.discipline, vi.sampleRate, |vi.game.data.states|)
      invariant forall i :: 0 <= i < |deltas| ==> deltas[i] >= theta
      decreases maxIter - iter
    {
      var r;
      r, tables := DenseAdvance(vi, draws, iter, deltas, tables);
      if r.Err? {
        return Err(r.error), tables;
      }
      deltas := deltas + [r.value];
      if r.value < theta {
        return Ok(deltas), tables;
      }
      iter := iter + 1;
    }
    res := Ok(deltas);
  }
}
