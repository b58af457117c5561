/** Loading order of the Python bindings' libraries: a topological sort by waves. */
module DependencyOrder {
  import opened Common

  type Lib = string

  /** For each library found, the ns-3 libraries it links to. */
  type Deps = map<Lib, seq<Lib>>

  // ---------- selecting in list order ----------

  function Select(xs: seq<Lib>, p: Lib -> bool): (r: seq<Lib>)
    ensures forall x :: x in r <==> x in xs && p(x)
  {
    if xs == [] then []
    else
      var x := xs[|xs| - 1];
      var front := Select(xs[..|xs| - 1], p);
      assert xs == xs[..|xs| - 1] + [x];
      if p(x) then front + [x] else front
  }

  lemma {:induction false} SelectSame(xs: seq<Lib>, p: Lib -> bool, q: Lib -> bool)
    requires forall x :: x in xs ==> p(x) == q(x)
    ensures Select(xs, p) == Select(xs, q)
  {
    if xs != [] {
      SelectSame(xs[..|xs| - 1], p, q);
    }
  }

  lemma {:induction false} SelectTwice(xs: seq<Lib>, p: Lib -> bool, q: Lib -> bool)
    ensures Select(Select(xs, p), q) == Select(xs, x => p(x) && q(x))
  {
    if xs != [] {
      var front := xs[..|xs| - 1];
      SelectTwice(front, p, q);
      if p(xs[|xs| - 1]) {
        assert Select(xs, p)[..|Select(front, p)|] == Select(front, p);
      }
    }
  }

  lemma {:induction false} SelectAll(xs: seq<Lib>, p: Lib -> bool)
    requires forall x :: x in xs ==> p(x)
    ensures Select(xs, p) == xs
  {
    if xs != [] {
      SelectAll(xs[..|xs| - 1], p);
    }
  }

  /** Two disjoint selections together are the selection of either. */
  lemma {:induction false} SelectSplit(xs: seq<Lib>, p: Lib -> bool, q: Lib -> bool, either: Lib -> bool)
    requires forall x :: x in xs ==> either(x) == (p(x) || q(x)) && !(p(x) && q(x))
    ensures multiset(Select(xs, p)) + multiset(Select(xs, q)) == multiset(Select(xs, either))
  {
    if xs != [] {
      SelectSplit(xs[..|xs| - 1], p, q, either);
    }
  }

  /** x stands before y in the list. */
  ghost predicate Before(xs: seq<Lib>, x: Lib, y: Lib)
  {
    exists i, j :: 0 <= i < j < |xs| && xs[i] == x && xs[j] == y
  }

  ghost predicate InOrderOf(rs: seq<Lib>, xs: seq<Lib>)
  {
    forall a, b :: 0 <= a < b < |rs| ==> Before(xs, rs[a], rs[b])
  }

  /** A selection keeps the order of the list. */
  lemma {:induction false} SelectKeepsOrder(xs: seq<Lib>, p: Lib -> bool)
    ensures InOrderOf(Select(xs, p), xs)
  {
    if xs != [] {
      var n := |xs| - 1;
      var front, r := Select(xs[..n], p), Select(xs, p);
      SelectKeepsOrder(xs[..n], p);
      forall a, b | 0 <= a < b < |r| ensures Before(xs, r[a], r[b]) {
        if b < |front| {
          assert Before(xs[..n], front[a], front[b]);
          var i, j :| 0 <= i < j < n && xs[..n][i] == front[a] && xs[..n][j] == front[b];
          assert xs[i] == r[a] && xs[j] == r[b];
        } else {
          assert front[a] in front && front[a] in xs[..n];
          var i :| 0 <= i < n && xs[..n][i] == front[a];
          assert xs[i] == r[a] && xs[n] == r[b];
        }
      }
    }
  }

  /** The list after removing the first occurrence of x. */
  function Remove(xs: seq<Lib>, x: Lib): seq<Lib>
  {
    if xs == [] then [] else if xs[0] == x then xs[1..] else [xs[0]] + Remove(xs[1..], x)
  }

  lemma {:induction false} RemoveAbsent(xs: seq<Lib>, x: Lib)
    requires x !in xs
    ensures Remove(xs, x) == xs
  {
    if xs != [] {
      RemoveAbsent(xs[1..], x);
    }
  }

  lemma {:induction false} RemoveSnoc(xs: seq<Lib>, y: Lib, x: Lib)
    ensures Remove(xs + [y], x) == if x in xs then Remove(xs, x) + [y] else if x == y then xs else xs + [y]
  {
    if xs != [] {
      RemoveSnoc(xs[1..], y, x);
      assert (xs + [y])[1..] == xs[1..] + [y];
    }
  }

  lemma {:induction false} RemoveSelected(xs: seq<Lib>, p: Lib -> bool, x: Lib)
    requires Distinct(xs)
    ensures Remove(Select(xs, p), x) == Select(xs, y => p(y) && y != x)
  {
    if xs != [] {
      var front, last := xs[..|xs| - 1], xs[|xs| - 1];
      RemoveSelected(front, p, x);
      RemoveSnoc(Select(front, p), last, x);
      if x == last {
        assert x !in front;
        RemoveAbsent(Select(front, p), x);
      } else if x !in Select(front, p) {
        RemoveAbsent(Select(front, p), x);
      }
    }
  }

  // ---------- what a wave loads ----------

  /** m is loaded within the first k waves. */
  predicate LoadedBy(deps: Deps, m: Lib, k: nat)
    decreases k
  {
    k > 0 && m in deps && forall d :: d in deps[m] ==> LoadedBy(deps, d, k - 1)
  }

  /** m is loaded in wave number k. */
  predicate InLayer(deps: Deps, m: Lib, k: nat) { LoadedBy(deps, m, k + 1) && !LoadedBy(deps, m, k) }

  function Layer(deps: Deps, keys: seq<Lib>, k: nat): seq<Lib> { Select(keys, m => InLayer(deps, m, k)) }

  /** Still pending after k waves, and not among those already moved. */
  function Waiting(deps: Deps, k: nat, moved: set<Lib>): Lib -> bool { m => !LoadedBy(deps, m, k) && m !in moved }

  function Unloaded(deps: Deps, keys: seq<Lib>, k: nat): seq<Lib> { Select(keys, Waiting(deps, k, {})) }

  ghost predicate AllLoaded(deps: Deps, k: nat) { forall m :: m in deps ==> LoadedBy(deps, m, k) }

  lemma {:induction false} LoadedStays(deps: Deps, m: Lib, k: nat, l: nat)
    requires LoadedBy(deps, m, k) && k <= l
    ensures LoadedBy(deps, m, l)
    decreases k
  {
    forall d | d in deps[m] ensures LoadedBy(deps, d, l - 1) {
      LoadedStays(deps, d, k - 1, l - 1);
    }
  }

  // ---------- the imperative sort ----------

  predicate CanBeLoaded(deps: Deps, m: Lib, current: seq<Lib>)
  {
    m in deps && forall d :: d in deps[m] ==> d in current
  }

  function Loadable(deps: Deps, current: seq<Lib>): Lib -> bool { m => CanBeLoaded(deps, m, current) }

  method ModulesThatCanBeLoaded(deps: Deps, pending: seq<Lib>, current: seq<Lib>) returns (modules: seq<Lib>)
    requires forall m :: m in pending ==> m in deps
    ensures modules == Select(pending, Loadable(deps, current))
    ensures forall m :: m in modules <==> m in pending && forall d :: d in deps[m] ==> d in current
    ensures InOrderOf(modules, pending)
  {
    SelectKeepsOrder(pending, Loadable(deps, current));
    hide InOrderOf;
    modules := [];
    var i := 0;
    while i < |pending|
      invariant 0 <= i <= |pending|
      invariant modules == Select(pending[..i], Loadable(deps, current))
    {
      var canBeLoaded := true;
      var dependencies := deps[pending[i]];
      var j := 0;
      while j < |dependencies| && canBeLoaded
        invariant 0 <= j <= |dependencies|
        invariant canBeLoaded ==> forall d :: d in dependencies[..j] ==> d in current
        invariant !canBeLoaded ==> exists d :: d in dependencies && d !in current
      {
        if dependencies[j] !in current {
          canBeLoaded := false;
        }
        j := j + 1;
      }
      assert canBeLoaded ==> dependencies[..j] == dependencies;
      if canBeLoaded {
        modules := modules + [pending[i]];
      }
      i := i + 1;
      assert pending[..i][..i - 1] == pending[..i - 1];
    }
    assert pending[..i] == pending;
  }

  /** What can be loaded in wave k is layer k. */
  lemma LoadableIsLayer(deps: Deps, keys: seq<Lib>, k: nat, current: seq<Lib>)
    requires forall m :: m in keys ==> m in deps
    requires forall m :: m in current <==> LoadedBy(deps, m, k)
    ensures Select(Unloaded(deps, keys, k), Loadable(deps, current)) == Layer(deps, keys, k)
  {
    var p, q := Waiting(deps, k, {}), Loadable(deps, current);
    SelectTwice(keys, p, q);
    var both, inLayer := x => p(x) && q(x), (m: Lib) => InLayer(deps, m, k);
    SelectSame(keys, both, inLayer);
  }

  /** Moving one library out of the pending list. */
  lemma MoveOne(deps: Deps, keys: seq<Lib>, k: nat, moved: set<Lib>, m: Lib)
    requires Distinct(keys)
    ensures Remove(Select(keys, Waiting(deps, k, moved)), m) == Select(keys, Waiting(deps, k, moved + {m}))
  {
    var p := Waiting(deps, k, moved);
    RemoveSelected(keys, p, m);
    SelectSame(keys, y => p(y) && y != m, Waiting(deps, k, moved + {m}));
  }

  lemma WaveMoved(deps: Deps, keys: seq<Lib>, k: nat, moved: set<Lib>)
    requires forall m :: m in moved <==> m in Layer(deps, keys, k)
    requires forall m :: m in keys <==> m in deps
    ensures Select(keys, Waiting(deps, k, moved)) == Unloaded(deps, keys, k + 1)
    ensures forall m :: LoadedBy(deps, m, k) || m in moved <==> LoadedBy(deps, m, k + 1)
  {
    forall m | LoadedBy(deps, m, k) ensures LoadedBy(deps, m, k + 1) {
      LoadedStays(deps, m, k, k + 1);
    }
    forall m | LoadedBy(deps, m, k + 1) && !LoadedBy(deps, m, k) ensures m in moved {
      assert m in keys;
    }
    SelectSame(keys, Waiting(deps, k, moved), Waiting(deps, k + 1, {}));
  }

  /** The lists and the dictionary that the recursion updates. */
  class Loader {
    const deps: Deps
    const keys: seq<Lib>
    var pending: seq<Lib>
    var current: seq<Lib>
    var steps: map<nat, seq<Lib>>

    /** Where things stand before wave k. */
    ghost predicate At(k: nat)
      reads this
    {
      && Distinct(keys) && (forall m :: m in keys <==> m in deps)
      && pending == Unloaded(deps, keys, k)
      && (forall m :: m in current <==> LoadedBy(deps, m, k))
      && (forall j: nat :: j in steps <==> j < k)
      && (forall j: nat :: j < k ==> steps[j] == Layer(deps, keys, j))
    }

    constructor (deps: Deps, keys: seq<Lib>)
      requires Distinct(keys) && forall m :: m in keys <==> m in deps
      ensures this.deps == deps && this.keys == keys && At(0)
    {
      this.deps, this.keys, pending, current, steps := deps, keys, keys, [], map[];
      new;
      SelectAll(keys, Waiting(deps, 0, {}));
    }

    /** Moves one wave from the pending to the loaded libraries. */
    method LoadWave(k: nat, modules: seq<Lib>)
      requires At(k) && modules == Layer(deps, keys, k)
      modifies this
      ensures At(k + 1)
    {
      hide Layer, Waiting, Select, Remove, LoadedBy, Distinct;
      steps := steps[k := []];
      ghost var moved: set<Lib> := {};
      ghost var earlier := current;
      var i := 0;
      while i < |modules|
        invariant 0 <= i <= |modules|
        invariant forall x :: x in moved <==> x in modules[..i]
        invariant pending == Select(keys, Waiting(deps, k, moved))
        invariant current == earlier + modules[..i]
        invariant (forall j: nat :: j in steps <==> j <= k) && steps[k] == modules[..i]
        invariant forall j: nat :: j < k ==> steps[j] == Layer(deps, keys, j)
      {
        var m := modules[i];
        MoveOne(deps, keys, k, moved, m);
        steps := steps[k := steps[k] + [m]];
        pending := Remove(pending, m);
        current := current + [m];
        moved := moved + {m};
        i := i + 1;
        assert modules[..i] == modules[..i - 1] + [m];
      }
      assert modules[..i] == modules;
      WaveMoved(deps, keys, k, moved);
    }

    /** The recursion; budget is what is left of the interpreter's recursion limit, and the result is false when
        that runs out. It succeeds exactly when some wave within the budget finds everything loaded. */
    method Order(k: nat, budget: nat) returns (ok: bool, ghost rounds: nat)
      requires At(k)
      modifies this
      ensures ok <==> exists r :: k <= r < k + budget && AllLoaded(deps, r)
      ensures ok ==> At(rounds) && k <= rounds < k + budget && AllLoaded(deps, rounds)
      ensures ok ==> rounds == k || !AllLoaded(deps, rounds - 1)
      decreases budget
    {
      hide LoadedBy, Select, Waiting, Layer, AllLoaded, Distinct;
      if budget == 0 {
        return false, 0;
      }
      PendingIff(deps, keys, k);
      if pending == [] {
        return true, k;
      }
      var modules := ModulesThatCanBeLoaded(deps, pending, current);
      LoadableIsLayer(deps, keys, k, current);
      hide Unloaded, Loader.At;
      LoadWave(k, modules);
      ok, rounds := Order(k + 1, budget - 1);
      if r :| k <= r < k + budget && AllLoaded(deps, r) {
        assert k + 1 <= r < (k + 1) + (budget - 1);
      }
    }
  }

  lemma PendingIff(deps: Deps, keys: seq<Lib>, k: nat)
    requires forall m :: m in keys <==> m in deps
    ensures Unloaded(deps, keys, k) == [] <==> AllLoaded(deps, k)
    ensures forall m :: m in Unloaded(deps, keys, k) ==> m in deps
  {
    var u := Unloaded(deps, keys, k);
    if u == [] {
      forall m | m in deps ensures LoadedBy(deps, m, k) {
        assert m in keys && m !in u;
      }
    } else {
      assert u[0] in u && !LoadedBy(deps, u[0], k);
    }
  }

  /** All waves in order, one after the other. */
  function Waves(deps: Deps, keys: seq<Lib>, k: nat): seq<Lib>
  {
    if k == 0 then [] else Waves(deps, keys, k - 1) + Layer(deps, keys, k - 1)
  }

  /** Every library comes after everything it links to. */
  ghost predicate DependenciesFirst(deps: Deps, order: seq<Lib>)
  {
    forall i, d :: 0 <= i < |order| && order[i] in deps && d in deps[order[i]] ==> d in order[..i]
  }

  /** Earlier layers come first, and libraries of one layer keep the order of the list. */
  ghost predicate ByLayer(deps: Deps, keys: seq<Lib>, order: seq<Lib>)
  {
    forall a, b, j: nat, k: nat :: 0 <= a < b < |order| && InLayer(deps, order[a], j) && InLayer(deps, order[b], k) ==>
      j < k || (j == k && Before(keys, order[a], order[b]))
  }

  lemma OneLayer(deps: Deps, m: Lib, j: nat, k: nat)
    requires InLayer(deps, m, j) && InLayer(deps, m, k)
    ensures j == k
  {
    if j < k {
      LoadedStays(deps, m, j + 1, k);
    } else if k < j {
      LoadedStays(deps, m, k + 1, j);
    }
  }

  lemma {:induction false} WaveIsLayer(deps: Deps, keys: seq<Lib>, k: nat, m: Lib) returns (j: nat)
    requires m in Waves(deps, keys, k)
    ensures j < k && InLayer(deps, m, j)
  {
    hide InLayer;
    if m in Layer(deps, keys, k - 1) {
      j := k - 1;
    } else {
      j := WaveIsLayer(deps, keys, k - 1, m);
    }
  }

  lemma {:induction false} WavesByLayer(deps: Deps, keys: seq<Lib>, k: nat)
    ensures ByLayer(deps, keys, Waves(deps, keys, k))
  {
    if k > 0 {
      var before, layer := Waves(deps, keys, k - 1), Layer(deps, keys, k - 1);
      WavesByLayer(deps, keys, k - 1);
      SelectKeepsOrder(keys, m => InLayer(deps, m, k - 1));
      var order := before + layer;
      assert Waves(deps, keys, k) == order;
      hide Waves, InLayer, Before;
      forall a, b, i: nat, j: nat | 0 <= a < b < |order| && InLayer(deps, order[a], i) && InLayer(deps, order[b], j)
        ensures i < j || (i == j && Before(keys, order[a], order[b]))
      {
        if b >= |before| {
          assert order[b] in layer;
          OneLayer(deps, order[b], j, k - 1);
          if a < |before| {
            assert order[a] in before;
            var l := WaveIsLayer(deps, keys, k - 1, order[a]);
            OneLayer(deps, order[a], i, l);
          } else {
            assert order[a] in layer;
            OneLayer(deps, order[a], i, k - 1);
          }
        }
      }
    }
  }

  /** The libraries in loading order, or nothing when the recursion limit is hit. */
  method SortToDependencies(deps: Deps, keys: seq<Lib>, limit: nat) returns (order: Option<seq<Lib>>)
    requires Distinct(keys) && forall m :: m in keys <==> m in deps
    ensures limit > |keys| ==> (order.Some? <==> Closed(deps) && Acyclic(deps))
    ensures order.Some? <==> exists r: nat :: r < limit && AllLoaded(deps, r)
    ensures order.Some? ==> multiset(order.value) == multiset(keys) && DependenciesFirst(deps, order.value)
    ensures order.Some? ==> ByLayer(deps, keys, order.value)
  {
    hide ByLayer;
    hide Layer, AllLoaded, Closed, Acyclic, Distinct, Unloaded;
    var loader := new Loader(deps, keys);
    var ok, rounds := loader.Order(0, limit);
    LoadsIff(deps, keys);
    hide Loader.At;
    if !ok {
      return None;
    }
    var sorted: seq<Lib> := [];
    var step := 0;
    while step in loader.steps
      invariant step <= rounds && sorted == Waves(deps, keys, step)
      decreases rounds - step
    {
      sorted := sorted + loader.steps[step];
      step := step + 1;
    }
    WavesArePermutation(deps, keys, rounds);
    WavesAreOrdered(deps, keys, rounds);
    WavesByLayer(deps, keys, rounds);
    return Some(sorted);
  }

  lemma {:induction false} WavesAreLoaded(deps: Deps, keys: seq<Lib>, k: nat)
    ensures multiset(Waves(deps, keys, k)) == multiset(Select(keys, m => LoadedBy(deps, m, k)))
  {
    if k == 0 {
      SelectSame(keys, m => LoadedBy(deps, m, 0), m => false);
      SelectNone(keys);
    } else {
      WavesAreLoaded(deps, keys, k - 1);
      forall m | LoadedBy(deps, m, k - 1) ensures LoadedBy(deps, m, k) {
        LoadedStays(deps, m, k - 1, k);
      }
      SelectSplit(keys, m => LoadedBy(deps, m, k - 1), m => InLayer(deps, m, k - 1), m => LoadedBy(deps, m, k));
    }
  }

  lemma {:induction false} SelectNone(xs: seq<Lib>)
    ensures Select(xs, m => false) == []
  {
    if xs != [] {
      SelectNone(xs[..|xs| - 1]);
    }
  }

  lemma WavesArePermutation(deps: Deps, keys: seq<Lib>, k: nat)
    requires AllLoaded(deps, k) && forall m :: m in keys ==> m in deps
    ensures multiset(Waves(deps, keys, k)) == multiset(keys)
  {
    WavesAreLoaded(deps, keys, k);
    SelectAll(keys, m => LoadedBy(deps, m, k));
  }

  /** What is loaded within k waves is in the first k waves. */
  lemma LoadedIsThere(deps: Deps, keys: seq<Lib>, k: nat, d: Lib)
    requires LoadedBy(deps, d, k) && d in keys
    ensures d in Waves(deps, keys, k)
  {
    WavesAreLoaded(deps, keys, k);
    hide Waves;
    assert d in multiset(Select(keys, m => LoadedBy(deps, m, k)));
  }

  /** More libraries behind, whose dependencies all stand in front. */
  lemma AppendOrdered(deps: Deps, before: seq<Lib>, more: seq<Lib>)
    requires DependenciesFirst(deps, before)
    requires forall i, d :: 0 <= i < |more| && more[i] in deps && d in deps[more[i]] ==> d in before
    ensures DependenciesFirst(deps, before + more)
  {
    var order := before + more;
    forall i, d | 0 <= i < |order| && order[i] in deps && d in deps[order[i]] ensures d in order[..i] {
      if i < |before| {
        assert order[..i] == before[..i];
      } else {
        assert order[i] == more[i - |before|] && order[..i] == before + more[..i - |before|];
      }
    }
  }

  lemma {:induction false} WavesAreOrdered(deps: Deps, keys: seq<Lib>, k: nat)
    requires forall m :: m in deps ==> m in keys
    ensures DependenciesFirst(deps, Waves(deps, keys, k))
  {
    if k > 0 {
      var before, layer := Waves(deps, keys, k - 1), Layer(deps, keys, k - 1);
      WavesAreOrdered(deps, keys, k - 1);
      hide DependenciesFirst, Waves;
      forall i, d | 0 <= i < |layer| && layer[i] in deps && d in deps[layer[i]] ensures d in before {
        assert layer[i] in layer && LoadedBy(deps, d, k - 1);
        LoadedIsThere(deps, keys, k - 1, d);
      }
      AppendOrdered(deps, before, layer);
      assert Waves(deps, keys, k) == before + layer by { WavesStep(deps, keys, k); }
    } else {
      assert Waves(deps, keys, 0) == [];
    }
  }

  lemma WavesStep(deps: Deps, keys: seq<Lib>, k: nat)
    requires k > 0
    ensures Waves(deps, keys, k) == Waves(deps, keys, k - 1) + Layer(deps, keys, k - 1)
  {
  }

  // ---------- chains: what a layer number means and when the sort ends ----------

  /** Each library links to the next one. */
  ghost predicate IsChain(deps: Deps, c: seq<Lib>)
  {
    c != [] && c[0] in deps && forall i :: 0 <= i < |c| - 1 ==> c[i] in deps && c[i + 1] in deps[c[i]]
  }

  /** Every library linked to is itself in the dictionary. */
  ghost predicate Closed(deps: Deps)
  {
    forall m, d :: m in deps && d in deps[m] ==> d in deps
  }

  ghost predicate Acyclic(deps: Deps)
  {
    forall c :: IsChain(deps, c) && |c| >= 2 ==> c[0] != c[|c| - 1]
  }

  ghost predicate HasChain(deps: Deps, m: Lib, length: nat)
  {
    exists c :: IsChain(deps, c) && c[0] == m && |c| == length
  }

  /** A library loaded within k waves starts no chain of more than k libraries. */
  lemma {:induction false} LoadedBoundsChains(deps: Deps, c: seq<Lib>, k: nat)
    requires IsChain(deps, c) && LoadedBy(deps, c[0], k)
    ensures |c| <= k
    decreases k
  {
    if |c| >= 2 {
      assert c[1] in deps[c[0]] && LoadedBy(deps, c[1], k - 1);
      LoadedBoundsChains(deps, c[1..], k - 1);
    }
  }

  /** A library not loaded within k waves starts a chain of k + 1 libraries. */
  lemma {:induction false} UnloadedHasChain(deps: Deps, m: Lib, k: nat) returns (c: seq<Lib>)
    requires Closed(deps) && m in deps && !LoadedBy(deps, m, k)
    ensures IsChain(deps, c) && c[0] == m && |c| == k + 1
    decreases k
  {
    if k == 0 {
      c := [m];
    } else {
      var d :| d in deps[m] && !LoadedBy(deps, d, k - 1);
      var rest := UnloadedHasChain(deps, d, k - 1);
      c := [m] + rest;
      forall i | 0 <= i < |c| - 1 ensures c[i] in deps && c[i + 1] in deps[c[i]] {
        if i > 0 {
          assert c[i] == rest[i - 1] && c[i + 1] == rest[(i - 1) + 1];
        }
      }
    }
  }

  /** The layer of a library is the length of its longest dependency chain. */
  lemma LayerIsLongestChain(deps: Deps, keys: seq<Lib>, m: Lib, k: nat)
    requires Closed(deps) && forall x :: x in keys <==> x in deps
    ensures m in Layer(deps, keys, k) <==> HasChain(deps, m, k + 1) && !HasChain(deps, m, k + 2)
  {
    if m in deps {
      if !LoadedBy(deps, m, k) {
        var c := UnloadedHasChain(deps, m, k);
      }
      if !LoadedBy(deps, m, k + 1) {
        var c := UnloadedHasChain(deps, m, k + 1);
      }
      forall c, l: nat | IsChain(deps, c) && c[0] == m && LoadedBy(deps, m, l) ensures |c| <= l {
        LoadedBoundsChains(deps, c, l);
      }
    }
  }

  lemma {:induction false} ChainStaysInside(deps: Deps, c: seq<Lib>, i: nat)
    requires Closed(deps) && IsChain(deps, c) && i < |c|
    ensures c[i] in deps
  {
    if i > 0 {
      ChainStaysInside(deps, c, i - 1);
      assert c[(i - 1) + 1] in deps[c[i - 1]];
    }
  }

  lemma {:induction false} Pigeonhole(xs: seq<Lib>, s: set<Lib>)
    requires Distinct(xs) && forall x :: x in xs ==> x in s
    ensures |xs| <= |s|
  {
    if xs != [] {
      var x := xs[|xs| - 1];
      Pigeonhole(xs[..|xs| - 1], s - {x});
    }
  }

  lemma {:induction false} LoadedAlongChain(deps: Deps, c: seq<Lib>, k: nat, i: nat)
    requires IsChain(deps, c) && LoadedBy(deps, c[0], k) && i < |c|
    ensures i < k && LoadedBy(deps, c[i], k - i)
  {
    if i > 0 {
      LoadedAlongChain(deps, c, k, i - 1);
      assert c[(i - 1) + 1] in deps[c[i - 1]];
    }
  }

  lemma {:induction false} CycleNeverLoads(deps: Deps, c: seq<Lib>, k: nat)
    requires IsChain(deps, c) && |c| >= 2 && c[0] == c[|c| - 1]
    ensures !LoadedBy(deps, c[0], k)
    decreases k
  {
    if LoadedBy(deps, c[0], k) {
      LoadedAlongChain(deps, c, k, |c| - 1);
      CycleNeverLoads(deps, c, k - (|c| - 1));
    }
  }

  lemma NoReturn(deps: Deps, c: seq<Lib>)
    requires Closed(deps) && Acyclic(deps) && IsChain(deps, c)
    ensures Distinct(c)
  {
    forall i, j | 0 <= i < j < |c| ensures c[i] != c[j] {
      var part := c[i..j + 1];
      ChainStaysInside(deps, c, i);
      forall n | 0 <= n < |part| - 1 ensures part[n] in deps && part[n + 1] in deps[part[n]] {
        assert part[n] == c[i + n] && part[n + 1] == c[(i + n) + 1];
      }
      assert IsChain(deps, part);
    }
  }

  /** A chain repeats no library, so it is no longer than the list of all libraries. */
  lemma AcyclicChainIsShort(deps: Deps, keys: seq<Lib>, c: seq<Lib>)
    requires Distinct(keys) && (forall m :: m in keys <==> m in deps)
    requires Closed(deps) && Acyclic(deps) && IsChain(deps, c)
    ensures |c| <= |keys|
  {
    NoReturn(deps, c);
    forall x | x in c ensures x in deps.Keys {
      var i :| 0 <= i < |c| && c[i] == x;
      ChainStaysInside(deps, c, i);
    }
    hide Acyclic, Closed, IsChain, Distinct;
    Pigeonhole(c, deps.Keys);
    KeysCount(deps, keys);
  }

  lemma AcyclicLoads(deps: Deps, keys: seq<Lib>)
    requires Distinct(keys) && (forall m :: m in keys <==> m in deps) && Closed(deps) && Acyclic(deps)
    ensures AllLoaded(deps, |keys|)
  {
    hide LoadedBy, IsChain, Acyclic, Closed, Distinct;
    forall m | m in deps ensures LoadedBy(deps, m, |keys|) {
      if !LoadedBy(deps, m, |keys|) {
        var c := UnloadedHasChain(deps, m, |keys|);
        AcyclicChainIsShort(deps, keys, c);
        assert false;
      }
    }
  }

  lemma {:induction false} DistinctCount(xs: seq<Lib>)
    requires Distinct(xs)
    ensures |set x | x in xs| == |xs|
  {
    if xs != [] {
      var front := xs[..|xs| - 1];
      DistinctCount(front);
      assert (set x | x in xs) == (set x | x in front) + {xs[|xs| - 1]};
    }
  }

  lemma KeysCount(deps: Deps, keys: seq<Lib>)
    requires Distinct(keys) && forall m :: m in keys <==> m in deps
    ensures |deps.Keys| == |keys|
  {
    DistinctCount(keys);
    assert deps.Keys == set x | x in keys;
  }

  /** The waves end exactly when the dictionary is closed and has no cycle; then as many waves as there are
      libraries always suffice. */
  lemma LoadsIff(deps: Deps, keys: seq<Lib>)
    requires Distinct(keys) && forall m :: m in keys <==> m in deps
    ensures (exists k: nat :: AllLoaded(deps, k)) <==> Closed(deps) && Acyclic(deps)
    ensures AllLoaded(deps, |keys|) <==> Closed(deps) && Acyclic(deps)
  {
    if exists k: nat :: AllLoaded(deps, k) {
      var k: nat :| AllLoaded(deps, k);
      forall m, d | m in deps && d in deps[m] ensures d in deps {
        assert LoadedBy(deps, m, k) && LoadedBy(deps, d, k - 1);
      }
      forall c | IsChain(deps, c) && |c| >= 2 ensures c[0] != c[|c| - 1] {
        if c[0] == c[|c| - 1] {
          CycleNeverLoads(deps, c, k);
        }
      }
    }
    if Closed(deps) && Acyclic(deps) {
      AcyclicLoads(deps, keys);
    }
  }

  /** A wave that loads nothing while libraries are pending means that each of them waits for another one, and
      that no later wave loads any of them. */
  lemma {:induction false} EmptyWaveIsForever(deps: Deps, keys: seq<Lib>, k: nat, l: nat, m: Lib)
    requires forall x :: x in keys <==> x in deps
    requires Layer(deps, keys, k) == [] && m in Unloaded(deps, keys, k) && k <= l
    ensures !LoadedBy(deps, m, l) && exists d :: d in deps[m] && !LoadedBy(deps, d, k)
    decreases l
  {
    assert m !in Layer(deps, keys, k);
    var d :| d in deps[m] && !LoadedBy(deps, d, k);
    if l > k {
      if d in deps {
        assert d in Unloaded(deps, keys, k);
        EmptyWaveIsForever(deps, keys, k, l - 1, d);
      }
    }
  }
}
