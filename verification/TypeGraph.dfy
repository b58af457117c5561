/** Gathering configuration paths: a depth-first search over the graph of registered types that lists every
    labelled walk from a root that repeats no type. */
module TypeGraph {
  import opened Common

  // ---------- the graph ----------

  /** A type is known by its position in the registry. */
  type TypeId = nat

  /** What an attribute's checker says: a pointer, a container of pointers, or anything else. */
  datatype Checker = Pointer(pointee: TypeId) | Container(item: TypeId) | Plain

  datatype Attribute = Attribute(name: string, checker: Checker)

  datatype TypeInfo = TypeInfo(name: string, attributes: seq<Attribute>)

  /** The registered types, the strict "is child of" relation, the Object type and the aggregations. */
  datatype Graph = Graph(types: seq<TypeInfo>, childOf: set<(TypeId, TypeId)>, objectType: TypeId,
                         aggregates: seq<(TypeId, TypeId)>)

  datatype Edge = Edge(name: string, target: TypeId)

  /** Every type mentioned is registered. */
  ghost predicate Closed(g: Graph)
  {
    && (forall t, i :: 0 <= t < |g.types| && 0 <= i < |g.types[t].attributes| ==>
          match g.types[t].attributes[i].checker {
            case Pointer(p) => p < |g.types|
            case Container(c) => c < |g.types|
            case Plain => true
          })
    && (forall a :: a in g.aggregates ==> a.0 < |g.types| && a.1 < |g.types|)
  }

  /** The configuration-path step an attribute offers; pointers to plain Object are not followed. */
  function AttributeEdge(g: Graph, a: Attribute): seq<Edge>
  {
    match a.checker
    case Pointer(p) => if p == g.objectType then [] else [Edge(a.name, p)]
    case Container(c) => [Edge(a.name + "/[i]", c)]
    case Plain => []
  }

  function AttributeEdges(g: Graph, attributes: seq<Attribute>): seq<Edge>
  {
    if attributes == [] then []
    else AttributeEdges(g, attributes[..|attributes| - 1]) + AttributeEdge(g, attributes[|attributes| - 1])
  }

  function ChildEdge(g: Graph, t: TypeId, child: TypeId): seq<Edge>
    requires child < |g.types|
  {
    if (child, t) in g.childOf then [Edge("$" + g.types[child].name, child)] else []
  }

  /** Edges to the children of t among the first n registered types. */
  function ChildEdges(g: Graph, t: TypeId, n: nat): seq<Edge>
    requires n <= |g.types|
  {
    if n == 0 then [] else ChildEdges(g, t, n - 1) + ChildEdge(g, t, n - 1)
  }

  /** An aggregation can be walked from either end. */
  function AggregateEdge(g: Graph, t: TypeId, a: (TypeId, TypeId)): seq<Edge>
    requires a.0 < |g.types| && a.1 < |g.types|
  {
    if a.1 == t then [Edge("$" + g.types[a.0].name, a.0)]
    else if a.0 == t then [Edge("$" + g.types[a.1].name, a.1)]
    else []
  }

  function AggregateEdges(g: Graph, t: TypeId, aggregates: seq<(TypeId, TypeId)>): seq<Edge>
    requires forall a :: a in aggregates ==> a.0 < |g.types| && a.1 < |g.types|
  {
    if aggregates == [] then []
    else
      AggregateEdges(g, t, aggregates[..|aggregates| - 1]) + AggregateEdge(g, t, aggregates[|aggregates| - 1])
  }

  /** All steps from t, in the order in which the search takes them. */
  function Edges(g: Graph, t: TypeId): seq<Edge>
    requires Closed(g) && t < |g.types|
  {
    AttributeEdges(g, g.types[t].attributes) + ChildEdges(g, t, |g.types|) + AggregateEdges(g, t, g.aggregates)
  }

  ghost predicate InRange(g: Graph, edges: seq<Edge>)
  {
    forall i :: 0 <= i < |edges| ==> edges[i].target < |g.types|
  }

  lemma {:induction false} AttributeEdgesInRange(g: Graph, t: TypeId, n: nat)
    requires Closed(g) && t < |g.types| && n <= |g.types[t].attributes|
    ensures InRange(g, AttributeEdges(g, g.types[t].attributes[..n]))
  {
    if n > 0 {
      AttributeEdgesInRange(g, t, n - 1);
      var attrs := g.types[t].attributes;
      assert attrs[..n][..n - 1] == attrs[..n - 1];
      assert attrs[..n][n - 1] == attrs[n - 1];
    }
  }

  lemma {:induction false} ChildEdgesInRange(g: Graph, t: TypeId, n: nat)
    requires n <= |g.types|
    ensures InRange(g, ChildEdges(g, t, n))
  {
    if n > 0 {
      ChildEdgesInRange(g, t, n - 1);
    }
  }

  lemma {:induction false} AggregateEdgesInRange(g: Graph, t: TypeId, aggregates: seq<(TypeId, TypeId)>)
    requires forall a :: a in aggregates ==> a.0 < |g.types| && a.1 < |g.types|
    ensures InRange(g, AggregateEdges(g, t, aggregates))
  {
    if aggregates != [] {
      AggregateEdgesInRange(g, t, aggregates[..|aggregates| - 1]);
      assert aggregates[|aggregates| - 1] in aggregates;
    }
  }

  lemma EdgesInRange(g: Graph, t: TypeId)
    requires Closed(g) && t < |g.types|
    ensures InRange(g, Edges(g, t))
  {
    var attrs := g.types[t].attributes;
    AttributeEdgesInRange(g, t, |attrs|);
    assert attrs[..|attrs|] == attrs;
    ChildEdgesInRange(g, t, |g.types|);
    AggregateEdgesInRange(g, t, g.aggregates);
  }

  // ---------- what the registry offers ----------

  /** The attribute offers the step: a pointer to the target, save to plain Object, under its own name, or a container
      of the target under its name with an index. */
  ghost predicate OffersBy(g: Graph, a: Attribute, e: Edge)
  {
    || (a.checker == Pointer(e.target) && e.target != g.objectType && e.name == a.name)
    || (a.checker == Container(e.target) && e.name == a.name + "/[i]")
  }

  ghost function Offering(g: Graph, attributes: seq<Attribute>, e: Edge): set<nat>
  {
    set i | 0 <= i < |attributes| && OffersBy(g, attributes[i], e)
  }

  /** The step goes down from t to a registered child and is named after it. */
  ghost predicate IsChildStep(g: Graph, t: TypeId, e: Edge)
  {
    IsNamedAfter(g, e) && (e.target, t) in g.childOf
  }

  ghost predicate IsNamedAfter(g: Graph, e: Edge)
  {
    e.target < |g.types| && e.name == "$" + g.types[e.target].name
  }

  ghost predicate Joins(a: (TypeId, TypeId), t: TypeId, u: TypeId) { a == (u, t) || a == (t, u) }

  ghost function Joining(aggregates: seq<(TypeId, TypeId)>, t: TypeId, u: TypeId): set<nat>
  {
    set i | 0 <= i < |aggregates| && Joins(aggregates[i], t, u)
  }

  /** How often the registry offers a step from t: once for each attribute, once for a child, and once for each
      recorded aggregation with the type after which the step is named. */
  ghost function Offered(g: Graph, t: TypeId, e: Edge): nat
    requires t < |g.types|
  {
    |Offering(g, g.types[t].attributes, e)|
    + (if IsChildStep(g, t, e) then 1 else 0)
    + if IsNamedAfter(g, e) then |Joining(g.aggregates, t, e.target)| else 0
  }

  lemma CountConcat<T>(xs: seq<T>, ys: seq<T>, x: T)
    ensures multiset(xs + ys)[x] == multiset(xs)[x] + multiset(ys)[x]
  {
    assert multiset(xs + ys) == multiset(xs) + multiset(ys);
  }

  lemma CountOne<T>(x: T, y: T)
    ensures multiset([x])[y] == if x == y then 1 else 0
  {
  }

  lemma AttributeOffers(g: Graph, a: Attribute, e: Edge)
    ensures multiset(AttributeEdge(g, a))[e] == if OffersBy(g, a, e) then 1 else 0
  {
    match a.checker {
      case Pointer(p) => CountOne(Edge(a.name, p), e);
      case Container(c) => CountOne(Edge(a.name + "/[i]", c), e);
      case Plain =>
    }
  }

  lemma OfferingSnoc(g: Graph, front: seq<Attribute>, a: Attribute, e: Edge)
    ensures |Offering(g, front + [a], e)| == |Offering(g, front, e)| + if OffersBy(g, a, e) then 1 else 0
  {
    hide OffersBy;
    assert Offering(g, front + [a], e) == Offering(g, front, e) + if OffersBy(g, a, e) then {|front|} else {};
  }

  lemma {:induction false} CountAttributes(g: Graph, attributes: seq<Attribute>, e: Edge)
    ensures multiset(AttributeEdges(g, attributes))[e] == |Offering(g, attributes, e)|
  {
    if attributes != [] {
      var front, a := attributes[..|attributes| - 1], attributes[|attributes| - 1];
      assert attributes == front + [a];
      assert AttributeEdges(g, attributes) == AttributeEdges(g, front) + AttributeEdge(g, a);
      hide *;
      CountAttributes(g, front, e);
      CountConcat(AttributeEdges(g, front), AttributeEdge(g, a), e);
      AttributeOffers(g, a, e);
      OfferingSnoc(g, front, a, e);
    } else {
      assert Offering(g, attributes, e) == {};
    }
  }

  lemma ChildOffers(g: Graph, t: TypeId, n: nat, e: Edge)
    requires n < |g.types|
    ensures multiset(ChildEdge(g, t, n))[e] == if e.target == n && IsChildStep(g, t, e) then 1 else 0
  {
    CountOne(Edge("$" + g.types[n].name, n), e);
  }

  lemma CountChildStep(g: Graph, t: TypeId, n: nat, e: Edge)
    requires n < |g.types|
    ensures multiset(ChildEdges(g, t, n + 1))[e]
         == multiset(ChildEdges(g, t, n))[e] + if e.target == n && IsChildStep(g, t, e) then 1 else 0
  {
    ChildOffers(g, t, n, e);
    CountConcat(ChildEdges(g, t, n), ChildEdge(g, t, n), e);
    hide ChildEdge, IsChildStep;
  }

  lemma NoChildEdges(g: Graph, t: TypeId, e: Edge)
    ensures multiset(ChildEdges(g, t, 0))[e] == 0
  {
  }

  lemma {:induction false} CountChildren(g: Graph, t: TypeId, n: nat, e: Edge)
    requires n <= |g.types|
    ensures multiset(ChildEdges(g, t, n))[e] == if e.target < n && IsChildStep(g, t, e) then 1 else 0
  {
    hide *;
    if n == 0 {
      NoChildEdges(g, t, e);
    } else {
      var k := n - 1;
      CountChildren(g, t, k, e);
      CountChildStep(g, t, k, e);
    }
  }

  lemma AggregateOffers(g: Graph, t: TypeId, a: (TypeId, TypeId), e: Edge)
    requires a.0 < |g.types| && a.1 < |g.types|
    ensures multiset(AggregateEdge(g, t, a))[e] == if Joins(a, t, e.target) && IsNamedAfter(g, e) then 1 else 0
  {
    CountOne(Edge("$" + g.types[a.0].name, a.0), e);
    CountOne(Edge("$" + g.types[a.1].name, a.1), e);
  }

  lemma JoiningSnoc(front: seq<(TypeId, TypeId)>, a: (TypeId, TypeId), t: TypeId, u: TypeId)
    ensures |Joining(front + [a], t, u)| == |Joining(front, t, u)| + if Joins(a, t, u) then 1 else 0
  {
    hide Joins;
    assert Joining(front + [a], t, u) == Joining(front, t, u) + if Joins(a, t, u) then {|front|} else {};
  }

  lemma {:induction false} CountAggregates(g: Graph, t: TypeId, aggregates: seq<(TypeId, TypeId)>, e: Edge)
    requires forall a :: a in aggregates ==> a.0 < |g.types| && a.1 < |g.types|
    ensures multiset(AggregateEdges(g, t, aggregates))[e]
         == if IsNamedAfter(g, e) then |Joining(aggregates, t, e.target)| else 0
  {
    if aggregates != [] {
      var front, a := aggregates[..|aggregates| - 1], aggregates[|aggregates| - 1];
      assert aggregates == front + [a] && a in aggregates;
      assert AggregateEdges(g, t, aggregates) == AggregateEdges(g, t, front) + AggregateEdge(g, t, a);
      hide *;
      CountAggregates(g, t, front, e);
      CountConcat(AggregateEdges(g, t, front), AggregateEdge(g, t, a), e);
      AggregateOffers(g, t, a, e);
      JoiningSnoc(front, a, t, e.target);
    } else {
      assert Joining(aggregates, t, e.target) == {};
    }
  }

  lemma CountThree<T>(xs: seq<T>, ys: seq<T>, zs: seq<T>, x: T)
    ensures multiset(xs + ys + zs)[x] == multiset(xs)[x] + multiset(ys)[x] + multiset(zs)[x]
  {
    CountConcat(xs, ys, x);
    CountConcat(xs + ys, zs, x);
  }

  lemma OfferedIs(g: Graph, t: TypeId, e: Edge)
    requires Closed(g) && t < |g.types|
    ensures Edges(g, t) == AttributeEdges(g, g.types[t].attributes) + ChildEdges(g, t, |g.types|)
                           + AggregateEdges(g, t, g.aggregates)
    ensures Offered(g, t, e)
         == |Offering(g, g.types[t].attributes, e)|
            + (if e.target < |g.types| && IsChildStep(g, t, e) then 1 else 0)
            + if IsNamedAfter(g, e) then |Joining(g.aggregates, t, e.target)| else 0
  {
    hide AttributeEdges, ChildEdges, AggregateEdges, Offering, Joining, Closed;
  }

  /** The search takes each step from a type exactly as often as the registry offers it. */
  lemma EdgesAsOffered(g: Graph, t: TypeId, e: Edge)
    requires Closed(g) && t < |g.types|
    ensures multiset(Edges(g, t))[e] == Offered(g, t, e)
  {
    var attributes := g.types[t].attributes;
    OfferedIs(g, t, e);
    CountAggregates(g, t, g.aggregates, e);
    hide *;
    CountAttributes(g, attributes, e);
    CountChildren(g, t, |g.types|, e);
    CountThree(AttributeEdges(g, attributes), ChildEdges(g, t, |g.types|), AggregateEdges(g, t, g.aggregates), e);
  }

  // ---------- what the search outputs ----------

  datatype Entry = Entry(tid: TypeId, path: string)

  function Render(path: seq<string>): string
  {
    if path == [] then "" else Render(path[..|path| - 1]) + "/" + path[|path| - 1]
  }

  /** Types not on the stack; the search only ever descends into these. */
  function Free(g: Graph, stack: seq<TypeId>): set<TypeId>
  {
    set t | 0 <= t < |g.types| && t !in stack
  }

  lemma PushShrinks(g: Graph, stack: seq<TypeId>, t: TypeId)
    requires t < |g.types| && t !in stack
    ensures |Free(g, stack + [t])| < |Free(g, stack)|
  {
    assert Free(g, stack + [t]) == Free(g, stack) - {t};
    assert t in Free(g, stack);
  }

  /** Entries appended by the search entering t with the given path and stack. */
  function Gathered(g: Graph, path: seq<string>, stack: seq<TypeId>, t: TypeId): seq<Entry>
    requires Closed(g) && t < |g.types|
    decreases |Free(g, stack)|, 0
  {
    if t in stack then []
    else
      EdgesInRange(g, t);
      PushShrinks(g, stack, t);
      [Entry(t, Render(path))] + GatheredOver(g, path, stack + [t], Edges(g, t))
  }

  function GatheredOver(g: Graph, path: seq<string>, stack: seq<TypeId>, edges: seq<Edge>): seq<Entry>
    requires Closed(g) && InRange(g, edges)
    decreases |Free(g, stack)|, |edges|
  {
    if edges == [] then []
    else
      var e := edges[|edges| - 1];
      GatheredOver(g, path, stack, edges[..|edges| - 1]) + Gathered(g, path + [e.name], stack, e.target)
  }

  // ---------- walks ----------

  /** A walk from t is a list of edge positions, so parallel edges give different walks. */
  ghost predicate IsWalk(g: Graph, t: TypeId, w: seq<nat>)
    requires Closed(g) && t < |g.types|
    decreases |w|
  {
    w == [] || (w[0] < |Edges(g, t)| && (EdgesInRange(g, t); IsWalk(g, Edges(g, t)[w[0]].target, w[1..])))
  }

  /** The types a walk passes through, its start included. */
  ghost function Visits(g: Graph, t: TypeId, w: seq<nat>): seq<TypeId>
    requires Closed(g) && t < |g.types| && IsWalk(g, t, w)
    decreases |w|
  {
    if w == [] then [t] else EdgesInRange(g, t); [t] + Visits(g, Edges(g, t)[w[0]].target, w[1..])
  }

  ghost function End(g: Graph, t: TypeId, w: seq<nat>): TypeId
    requires Closed(g) && t < |g.types| && IsWalk(g, t, w)
    decreases |w|
  {
    if w == [] then t else EdgesInRange(g, t); End(g, Edges(g, t)[w[0]].target, w[1..])
  }

  ghost function Labels(g: Graph, t: TypeId, w: seq<nat>): seq<string>
    requires Closed(g) && t < |g.types| && IsWalk(g, t, w)
    decreases |w|
  {
    if w == [] then []
    else
      EdgesInRange(g, t);
      [Edges(g, t)[w[0]].name] + Labels(g, Edges(g, t)[w[0]].target, w[1..])
  }

  /** No repetition, and nothing in common with the stack. */
  ghost predicate Avoids(s: seq<TypeId>, stack: seq<TypeId>)
  {
    Distinct(s) && forall i :: 0 <= i < |s| ==> s[i] !in stack
  }

  /** A walk that repeats no type and meets none of the given ones. */
  ghost predicate IsSimple(g: Graph, stack: seq<TypeId>, t: TypeId, w: seq<nat>)
    requires Closed(g) && t < |g.types|
  {
    IsWalk(g, t, w) && Avoids(Visits(g, t, w), stack)
  }

  /** The entry a walk stands for: where it ends and the names along it. */
  ghost function EntryOf(g: Graph, path: seq<string>, t: TypeId, w: seq<nat>): Entry
    requires Closed(g) && t < |g.types| && IsWalk(g, t, w)
  {
    Entry(End(g, t, w), Render(path + Labels(g, t, w)))
  }

  /** out lists the entries of exactly the simple walks from t that avoid the stack, one entry per walk. */
  ghost predicate Enumerates(g: Graph, path: seq<string>, stack: seq<TypeId>, t: TypeId,
                             out: seq<Entry>, walks: seq<seq<nat>>)
    requires Closed(g) && t < |g.types|
  {
    && |out| == |walks|
    && Distinct(walks)
    && (forall w :: w in walks <==> IsSimple(g, stack, t, w))
    && (forall i :: 0 <= i < |out| ==> walks[i] in walks && out[i] == EntryOf(g, path, t, walks[i]))
  }

  /** The same, for walks whose first edge is among the first n from t. */
  ghost predicate EnumeratesVia(g: Graph, path: seq<string>, stack: seq<TypeId>, t: TypeId, n: nat,
                                out: seq<Entry>, walks: seq<seq<nat>>)
    requires Closed(g) && t < |g.types|
  {
    && |out| == |walks|
    && Distinct(walks)
    && (forall w :: w in walks <==> IsSimple(g, stack, t, w) && w != [] && w[0] < n)
    && (forall i :: 0 <= i < |out| ==> walks[i] in walks && out[i] == EntryOf(g, path, t, walks[i]))
  }

  function Prepend(k: nat, walks: seq<seq<nat>>): (r: seq<seq<nat>>)
    ensures |r| == |walks| && forall i :: 0 <= i < |r| ==> r[i] == [k] + walks[i]
  {
    seq(|walks|, i requires 0 <= i < |walks| => [k] + walks[i])
  }

  /** A walk that starts with edge k is simple exactly when what follows is simple and avoids t. */
  lemma SimpleStep(g: Graph, stack: seq<TypeId>, t: TypeId, w: seq<nat>)
    requires Closed(g) && t < |g.types| && t !in stack
    requires w != [] && w[0] < |Edges(g, t)| && Edges(g, t)[w[0]].target < |g.types|
    ensures IsSimple(g, stack, t, w) <==> IsSimple(g, stack + [t], Edges(g, t)[w[0]].target, w[1..])
  {
    var u := Edges(g, t)[w[0]].target;
    hide Edges, Closed, Distinct;
    if IsWalk(g, u, w[1..]) {
      var rest := Visits(g, u, w[1..]);
      assert Visits(g, t, w) == [t] + rest;
      if Avoids([t] + rest, stack) {
        AvoidsTail(t, rest, stack);
      } else if Avoids(rest, stack + [t]) {
        AvoidsCons(t, rest, stack);
        assert false;
      }
    }
  }

  lemma AvoidsTail(t: TypeId, rest: seq<TypeId>, stack: seq<TypeId>)
    requires Avoids([t] + rest, stack)
    ensures Avoids(rest, stack + [t])
  {
    var all := [t] + rest;
    assert all[0] == t && forall i :: 0 <= i < |rest| ==> all[i + 1] == rest[i];
  }

  lemma AvoidsCons(t: TypeId, rest: seq<TypeId>, stack: seq<TypeId>)
    requires t !in stack && Avoids(rest, stack + [t])
    ensures Avoids([t] + rest, stack)
  {
    var all := [t] + rest;
    forall i | 0 <= i < |rest| ensures rest[i] !in stack && rest[i] != t {
      assert (stack + [t])[|stack|] == t && forall k :: 0 <= k < |stack| ==> (stack + [t])[k] == stack[k];
    }
    assert all[0] == t && forall i :: 0 < i < |all| ==> all[i] == rest[i - 1];
  }

  lemma EntryStep(g: Graph, path: seq<string>, t: TypeId, w: seq<nat>)
    requires Closed(g) && t < |g.types| && w != [] && IsWalk(g, t, w)
    requires Edges(g, t)[w[0]].target < |g.types|
    ensures var e := Edges(g, t)[w[0]];
            EntryOf(g, path, t, w) == EntryOf(g, path + [e.name], e.target, w[1..])
  {
    var e := Edges(g, t)[w[0]];
    assert path + Labels(g, t, w) == path + [e.name] + Labels(g, e.target, w[1..]);
  }

  lemma StartIsVisited(g: Graph, t: TypeId, w: seq<nat>)
    requires Closed(g) && t < |g.types| && IsWalk(g, t, w)
    ensures |Visits(g, t, w)| == |w| + 1 && Visits(g, t, w)[0] == t
    decreases |w|
  {
    if w != [] {
      EdgesInRange(g, t);
      StartIsVisited(g, Edges(g, t)[w[0]].target, w[1..]);
    }
  }

  /** Sound and complete: the search appends one entry for every simple walk and nothing else. */
  lemma {:induction false} GatheredEnumerates(g: Graph, path: seq<string>, stack: seq<TypeId>, t: TypeId)
    returns (walks: seq<seq<nat>>)
    requires Closed(g) && t < |g.types|
    ensures Enumerates(g, path, stack, t, Gathered(g, path, stack, t), walks)
    decreases |Free(g, stack)|, 0
  {
    if t in stack {
      walks := [];
      forall w ensures !IsSimple(g, stack, t, w) {
        if IsWalk(g, t, w) { StartIsVisited(g, t, w); }
      }
    } else {
      hide Enumerates, EnumeratesVia, Edges, Closed, Free;
      EdgesInRange(g, t);
      PushShrinks(g, stack, t);
      var edges := Edges(g, t);
      assert edges[..|edges|] == edges;
      var via := GatheredVia(g, path, stack, t, |edges|);
      AddEmptyWalk(g, path, stack, t, GatheredOver(g, path, stack + [t], edges), via);
      walks := [[]] + via;
    }
  }

  lemma GatheredOverStep(g: Graph, path: seq<string>, stack: seq<TypeId>, edges: seq<Edge>, k: nat)
    requires Closed(g) && k < |edges| && InRange(g, edges[..k + 1])
    ensures InRange(g, edges[..k]) && edges[k].target < |g.types|
    ensures GatheredOver(g, path, stack, edges[..k + 1])
         == GatheredOver(g, path, stack, edges[..k]) + Gathered(g, path + [edges[k].name], stack, edges[k].target)
  {
    assert edges[..k + 1][k] == edges[k] && edges[..k + 1][..k] == edges[..k];
    assert forall i :: 0 <= i < k ==> edges[..k][i] == edges[..k + 1][i];
  }

  lemma {:induction false} GatheredVia(g: Graph, path: seq<string>, stack: seq<TypeId>, t: TypeId, n: nat)
    returns (walks: seq<seq<nat>>)
    requires Closed(g) && t < |g.types| && t !in stack && n <= |Edges(g, t)| && InRange(g, Edges(g, t)[..n])
    ensures EnumeratesVia(g, path, stack, t, n, GatheredOver(g, path, stack + [t], Edges(g, t)[..n]), walks)
    decreases |Free(g, stack + [t])|, n
  {
    if n == 0 {
      walks := [];
    } else {
      var k := n - 1;
      var edges := Edges(g, t);
      var e := edges[k];
      GatheredOverStep(g, path, stack + [t], edges, k);
      hide Enumerates, EnumeratesVia, Edges, Closed, Free, GatheredOver, Gathered, InRange;
      var before := GatheredVia(g, path, stack, t, k);
      var sub := GatheredEnumerates(g, path + [e.name], stack + [t], e.target);
      walks := before + Prepend(k, sub);
      ExtendVia(g, path, stack, t, k, GatheredOver(g, path, stack + [t], edges[..k]), before,
                Gathered(g, path + [e.name], stack + [t], e.target), sub);
    }
  }

  lemma InCons<T>(x: T, xs: seq<T>, y: T)
    ensures y in [x] + xs <==> y == x || y in xs
  {
    assert ([x] + xs)[0] == x;
  }

  lemma EmptyWalk(g: Graph, path: seq<string>, stack: seq<TypeId>, t: TypeId)
    requires Closed(g) && t < |g.types| && t !in stack
    ensures IsSimple(g, stack, t, []) && EntryOf(g, path, t, []) == Entry(t, Render(path))
  {
    hide Closed, Edges, Render;
    assert Visits(g, t, []) == [t];
    assert path + Labels(g, t, []) == path;
  }

  /** The empty walk, in front of all walks that have a first edge. */
  lemma AddEmptyWalk(g: Graph, path: seq<string>, stack: seq<TypeId>, t: TypeId, out: seq<Entry>, via: seq<seq<nat>>)
    requires Closed(g) && t < |g.types| && t !in stack
    requires EnumeratesVia(g, path, stack, t, |Edges(g, t)|, out, via)
    ensures Enumerates(g, path, stack, t, [Entry(t, Render(path))] + out, [[]] + via)
  {
    hide IsSimple, EntryOf, Edges, Closed, Render;
    var none: seq<nat> := [];
    var walks, all := [none] + via, [Entry(t, Render(path))] + out;
    EmptyWalk(g, path, stack, t);
    forall w ensures w in walks <==> IsSimple(g, stack, t, w) {
      InCons(none, via, w);
      if IsSimple(g, stack, t, w) { SimpleIsWalk(g, stack, t, w); }
    }
    forall i | 0 <= i < |out| ensures IsWalk(g, t, via[i]) {
      SimpleIsWalk(g, stack, t, via[i]);
    }
    hide Enumerates;
    EnumerateCons(g, path, stack, t, out, via);
  }

  lemma SimpleIsWalk(g: Graph, stack: seq<TypeId>, t: TypeId, w: seq<nat>)
    requires Closed(g) && t < |g.types| && IsSimple(g, stack, t, w)
    ensures IsWalk(g, t, w) && (w != [] ==> w[0] < |Edges(g, t)|)
  {
    hide Edges, Closed;
  }

  lemma EnumerateCons(g: Graph, path: seq<string>, stack: seq<TypeId>, t: TypeId, out: seq<Entry>, via: seq<seq<nat>>)
    requires Closed(g) && t < |g.types| && IsSimple(g, stack, t, [])
    requires EntryOf(g, path, t, []) == Entry(t, Render(path))
    requires |out| == |via| && Distinct(via) && forall w :: w in via ==> w != []
    requires forall i :: 0 <= i < |out| ==>
               via[i] in via && IsWalk(g, t, via[i]) && out[i] == EntryOf(g, path, t, via[i])
    requires forall w :: w in [[]] + via <==> IsSimple(g, stack, t, w)
    ensures Enumerates(g, path, stack, t, [Entry(t, Render(path))] + out, [[]] + via)
  {
    hide IsSimple, EntryOf, Edges, Closed, Render;
    var walks: seq<seq<nat>>, all := [[]] + via, [Entry(t, Render(path))] + out;
    forall i | 0 <= i < |all| ensures walks[i] in walks && all[i] == EntryOf(g, path, t, walks[i]) {
      if i > 0 {
        assert all[i] == out[i - 1] && walks[i] == via[i - 1];
      }
    }
    forall i, j | 0 <= i < j < |walks| ensures walks[i] != walks[j] {
      assert walks[j] == via[j - 1] && via[j - 1] in via;
    }
  }

  /** The walks through one more first edge, behind those through the earlier edges. */
  lemma ExtendVia(g: Graph, path: seq<string>, stack: seq<TypeId>, t: TypeId, k: nat,
                  out: seq<Entry>, before: seq<seq<nat>>, outSub: seq<Entry>, sub: seq<seq<nat>>)
    requires Closed(g) && t < |g.types| && t !in stack && k < |Edges(g, t)| && Edges(g, t)[k].target < |g.types|
    requires EnumeratesVia(g, path, stack, t, k, out, before)
    requires Enumerates(g, path + [Edges(g, t)[k].name], stack + [t], Edges(g, t)[k].target, outSub, sub)
    ensures EnumeratesVia(g, path, stack, t, k + 1, out + outSub, before + Prepend(k, sub))
  {
    hide Edges, Closed, IsSimple, IsWalk, EntryOf;
    var e := Edges(g, t)[k];
    var walks := before + Prepend(k, sub);
    ViaComplete(g, stack, t, k, before, sub);
    ViaDistinct(before, k, sub);
    hide Distinct;
    forall i | 0 <= i < |walks| ensures walks[i] in walks && IsWalk(g, t, walks[i])
    {
      SimpleIsWalk(g, stack, t, walks[i]);
    }
    forall i | |before| <= i < |walks| ensures (out + outSub)[i] == EntryOf(g, path, t, walks[i])
    {
      var j := i - |before|;
      assert walks[i] == [k] + sub[j] && walks[i][1..] == sub[j];
      assert sub[j] in sub && IsSimple(g, stack + [t], e.target, sub[j]);
      SimpleIsWalk(g, stack + [t], e.target, sub[j]);
      assert outSub[j] == EntryOf(g, path + [e.name], e.target, sub[j]);
      StepEntry(g, path, t, k, walks[i]);
    }
  }

  /** The entry of a walk is that of the rest of it, seen from behind its first edge. */
  lemma StepEntry(g: Graph, path: seq<string>, t: TypeId, k: nat, w: seq<nat>)
    requires Closed(g) && t < |g.types| && IsWalk(g, t, w) && w != [] && w[0] == k && k < |Edges(g, t)|
    requires Edges(g, t)[k].target < |g.types| && IsWalk(g, Edges(g, t)[k].target, w[1..])
    ensures EntryOf(g, path, t, w) == EntryOf(g, path + [Edges(g, t)[k].name], Edges(g, t)[k].target, w[1..])
  {
    EntryStep(g, path, t, w);
  }

  lemma InPrepend(k: nat, walks: seq<seq<nat>>, w: seq<nat>)
    ensures w in Prepend(k, walks) <==> w != [] && w[0] == k && w[1..] in walks
  {
    var r := Prepend(k, walks);
    if w in r {
      var j :| 0 <= j < |r| && r[j] == w;
      assert w[1..] == walks[j];
    }
    if w != [] && w[0] == k && w[1..] in walks {
      var j :| 0 <= j < |walks| && walks[j] == w[1..];
      assert r[j] == w;
    }
  }

  lemma ViaComplete(g: Graph, stack: seq<TypeId>, t: TypeId, k: nat, before: seq<seq<nat>>, sub: seq<seq<nat>>)
    requires Closed(g) && t < |g.types| && t !in stack && k < |Edges(g, t)| && Edges(g, t)[k].target < |g.types|
    requires forall w :: w in before <==> IsSimple(g, stack, t, w) && w != [] && w[0] < k
    requires forall w :: w in sub <==> IsSimple(g, stack + [t], Edges(g, t)[k].target, w)
    ensures forall w :: w in before + Prepend(k, sub) <==> IsSimple(g, stack, t, w) && w != [] && w[0] < k + 1
  {
    hide IsSimple, Edges, Closed;
    forall w ensures w in before + Prepend(k, sub) <==> IsSimple(g, stack, t, w) && w != [] && w[0] < k + 1 {
      InPrepend(k, sub, w);
      if w != [] && w[0] == k {
        SimpleStep(g, stack, t, w);
      }
    }
  }

  lemma ViaDistinct(before: seq<seq<nat>>, k: nat, sub: seq<seq<nat>>)
    requires Distinct(before) && Distinct(sub)
    requires forall w :: w in before ==> w != [] && w[0] < k
    ensures Distinct(before + Prepend(k, sub))
  {
    var all := before + Prepend(k, sub);
    forall i, j | 0 <= i < j < |all| ensures all[i] != all[j] {
      if j >= |before| {
        var b := j - |before|;
        assert all[j] == [k] + sub[b] && all[j][1..] == sub[b];
        if i >= |before| {
          var a := i - |before|;
          assert all[i] == [k] + sub[a] && all[i][1..] == sub[a];
        } else {
          assert all[i] in before;
        }
      }
    }
  }

  /** Gathering from a root appends exactly one entry for every walk from the root that repeats no type. */
  lemma GatherIsAllSimpleWalks(g: Graph, root: TypeId)
    requires Closed(g) && root < |g.types|
    ensures exists walks :: Enumerates(g, [], [], root, Gathered(g, [], [], root), walks)
  {
    var walks := GatheredEnumerates(g, [], [], root);
  }

  // ---------- routes through the registry ----------

  /** Steps that the registry offers, each from where the one before it leads. */
  ghost predicate IsRoute(g: Graph, t: TypeId, r: seq<Edge>)
    requires t < |g.types|
    decreases |r|
  {
    r == [] || (r[0].target < |g.types| && Offered(g, t, r[0]) > 0 && IsRoute(g, r[0].target, r[1..]))
  }

  function Passes(t: TypeId, r: seq<Edge>): seq<TypeId>
  {
    [t] + seq(|r|, i requires 0 <= i < |r| => r[i].target)
  }

  function NamesOn(r: seq<Edge>): seq<string>
  {
    seq(|r|, i requires 0 <= i < |r| => r[i].name)
  }

  /** The route repeats no type, and the entry holds its last type and the names along it. */
  ghost predicate LeadsTo(g: Graph, root: TypeId, r: seq<Edge>, entry: Entry)
    requires root < |g.types|
  {
    IsRoute(g, root, r) && Distinct(Passes(root, r)) && entry == Entry(Passes(root, r)[|r|], Render(NamesOn(r)))
  }

  ghost predicate CanBeReached(g: Graph, root: TypeId, entry: Entry)
    requires root < |g.types|
  {
    exists r :: LeadsTo(g, root, r, entry)
  }

  lemma OfferedIff(g: Graph, t: TypeId, e: Edge)
    requires Closed(g) && t < |g.types|
    ensures Offered(g, t, e) > 0 <==> e in Edges(g, t)
  {
    hide *;
    EdgesAsOffered(g, t, e);
    assert e in Edges(g, t) <==> multiset(Edges(g, t))[e] > 0;
  }

  /** The same in full: a step from t leads along an attribute that points to or holds its target, down to a child
      of t, or across an aggregation of t. */
  lemma StepIff(g: Graph, t: TypeId, e: Edge)
    requires Closed(g) && t < |g.types|
    ensures e in Edges(g, t)
       <==> || (exists a :: a in g.types[t].attributes
                            && ((a.checker == Pointer(e.target) && e.target != g.objectType && e.name == a.name)
                                || (a.checker == Container(e.target) && e.name == a.name + "/[i]")))
            || (e.target < |g.types| && e.name == "$" + g.types[e.target].name
                && ((e.target, t) in g.childOf || (e.target, t) in g.aggregates || (t, e.target) in g.aggregates))
  {
    OfferedIff(g, t, e);
    hide Closed, Edges;
    var attributes := g.types[t].attributes;
    if Offering(g, attributes, e) != {} {
      var i :| i in Offering(g, attributes, e);
      assert attributes[i] in attributes;
    }
    if a :| a in attributes && OffersBy(g, a, e) {
      var i :| 0 <= i < |attributes| && attributes[i] == a;
      assert i in Offering(g, attributes, e);
    }
    if Joining(g.aggregates, t, e.target) != {} {
      var i :| i in Joining(g.aggregates, t, e.target);
      assert g.aggregates[i] in g.aggregates;
    }
    if a :| a in g.aggregates && Joins(a, t, e.target) {
      var i :| 0 <= i < |g.aggregates| && g.aggregates[i] == a;
      assert i in Joining(g.aggregates, t, e.target);
    }
  }

  lemma RouteCons(t: TypeId, r: seq<Edge>)
    requires r != []
    ensures Passes(t, r) == [t] + Passes(r[0].target, r[1..])
    ensures NamesOn(r) == [r[0].name] + NamesOn(r[1..])
    ensures Passes(t, r)[|r|] == Passes(r[0].target, r[1..])[|r| - 1]
  {
  }

  /** The walk w along edge positions takes the steps of the route. */
  ghost predicate Takes(g: Graph, t: TypeId, w: seq<nat>, r: seq<Edge>)
    requires Closed(g) && t < |g.types| && IsWalk(g, t, w)
  {
    && IsRoute(g, t, r) && Passes(t, r) == Visits(g, t, w) && NamesOn(r) == Labels(g, t, w)
    && Passes(t, r)[|r|] == End(g, t, w)
  }

  lemma TakesCons(g: Graph, t: TypeId, w: seq<nat>, r: seq<Edge>)
    requires Closed(g) && t < |g.types| && w != [] && IsWalk(g, t, w) && r != [] && w[0] < |Edges(g, t)|
    requires r[0] == Edges(g, t)[w[0]] && r[0].target < |g.types| && IsWalk(g, r[0].target, w[1..])
    requires Takes(g, r[0].target, w[1..], r[1..])
    ensures Takes(g, t, w, r)
  {
    hide Closed, Edges, Offered, Passes, NamesOn;
    OfferedIff(g, t, r[0]);
    RouteCons(t, r);
  }

  lemma TakesNone(g: Graph, t: TypeId)
    requires Closed(g) && t < |g.types|
    ensures Takes(g, t, [], [])
  {
    hide Closed;
  }

  lemma {:induction false} WalkHasRoute(g: Graph, t: TypeId, w: seq<nat>) returns (r: seq<Edge>)
    requires Closed(g) && t < |g.types| && IsWalk(g, t, w)
    ensures Takes(g, t, w, r)
    decreases |w|
  {
    hide Closed, Edges, Takes;
    if w == [] {
      r := [];
      TakesNone(g, t);
    } else {
      EdgesInRange(g, t);
      var e := Edges(g, t)[w[0]];
      var rest := WalkHasRoute(g, e.target, w[1..]);
      r := [e] + rest;
      assert r[1..] == rest;
      TakesCons(g, t, w, r);
    }
  }

  lemma {:induction false} RouteHasWalk(g: Graph, t: TypeId, r: seq<Edge>) returns (w: seq<nat>)
    requires Closed(g) && t < |g.types| && IsRoute(g, t, r)
    ensures IsWalk(g, t, w) && Takes(g, t, w, r)
    decreases |r|
  {
    hide Closed, Edges, Takes, Offered;
    if r == [] {
      w := [];
      TakesNone(g, t);
    } else {
      OfferedIff(g, t, r[0]);
      var k :| 0 <= k < |Edges(g, t)| && Edges(g, t)[k] == r[0];
      var rest := RouteHasWalk(g, r[0].target, r[1..]);
      w := [k] + rest;
      assert w[1..] == rest;
      TakesCons(g, t, w, r);
    }
  }

  /** Gathering from a root lists a type with a path exactly if a route through the registry that repeats no type
      leads there along the names of the path. */
  lemma GatheredIff(g: Graph, root: TypeId, entry: Entry)
    requires Closed(g) && root < |g.types|
    ensures entry in Gathered(g, [], [], root) <==> CanBeReached(g, root, entry)
  {
    var out := Gathered(g, [], [], root);
    var walks := GatheredEnumerates(g, [], [], root);
    hide Gathered, Closed, Edges, IsWalk, Visits, Labels, End, Render, Passes, NamesOn, IsRoute;
    if entry in out {
      var i :| 0 <= i < |out| && out[i] == entry;
      assert walks[i] in walks;
      var r := WalkHasRoute(g, root, walks[i]);
      assert [] + Labels(g, root, walks[i]) == Labels(g, root, walks[i]);
      assert LeadsTo(g, root, r, entry);
    }
    if r :| LeadsTo(g, root, r, entry) {
      var w := RouteHasWalk(g, root, r);
      assert [] + Labels(g, root, w) == Labels(g, root, w);
      assert IsSimple(g, [], root, w);
      var i :| 0 <= i < |walks| && walks[i] == w;
      assert out[i] == entry;
    }
  }

  lemma RenderSnoc(names: seq<string>, name: string)
    ensures Render(names + [name]) == Render(names) + "/" + name
  {
    assert (names + [name])[..|names|] == names;
  }

  /** A path is written name by name, each behind a slash. */
  lemma {:induction false} RenderCons(name: string, rest: seq<string>)
    ensures Render([]) == "" && Render([name] + rest) == "/" + name + Render(rest)
  {
    assert Render([]) == "";
    hide Render;
    if rest == [] {
      RenderSnoc([], name);
      assert [name] + rest == [] + [name];
    } else {
      var front, last := rest[..|rest| - 1], rest[|rest| - 1];
      RenderCons(name, front);
      RenderSnoc([name] + front, last);
      RenderSnoc(front, last);
      assert rest == front + [last] && [name] + rest == [name] + front + [last];
      assert "/" + name + Render(front) + "/" + last == "/" + name + (Render(front) + "/" + last);
    }
  }

  lemma OneStepListed(g: Graph, root: TypeId, e: Edge)
    requires Closed(g) && root < |g.types| && e.target < |g.types| && e.target != root && Offered(g, root, e) > 0
    ensures Entry(e.target, "/" + e.name) in Gathered(g, [], [], root)
  {
    hide Closed, Offered, Gathered, Edges;
    var r := [e];
    assert IsRoute(g, root, r) by { assert IsRoute(g, e.target, r[1..]); }
    assert Passes(root, r) == [root, e.target];
    assert NamesOn(r) == [e.name];
    RenderCons(e.name, []);
    assert [e.name] + [] == [e.name];
    assert LeadsTo(g, root, r, Entry(e.target, "/" + e.name));
    GatheredIff(g, root, Entry(e.target, "/" + e.name));
  }

  /** What is one step away is listed under the step's name: the types that the root's attributes point to, save plain
      Object, those that its containers hold, its registered children and the types aggregated to it. */
  lemma NeighboursListed(g: Graph, root: TypeId, u: TypeId)
    requires Closed(g) && root < |g.types| && u < |g.types| && u != root
    ensures forall a :: a in g.types[root].attributes ==>
              && (a.checker == Pointer(u) && u != g.objectType ==>
                    Entry(u, "/" + a.name) in Gathered(g, [], [], root))
              && (a.checker == Container(u) ==> Entry(u, "/" + a.name + "/[i]") in Gathered(g, [], [], root))
    ensures (u, root) in g.childOf || (u, root) in g.aggregates || (root, u) in g.aggregates ==>
              Entry(u, "/$" + g.types[u].name) in Gathered(g, [], [], root)
  {
    hide Gathered, Closed;
    var attributes := g.types[root].attributes;
    forall a | a in attributes && a.checker == Pointer(u) && u != g.objectType
      ensures Entry(u, "/" + a.name) in Gathered(g, [], [], root)
    {
      var i :| 0 <= i < |attributes| && attributes[i] == a;
      assert i in Offering(g, attributes, Edge(a.name, u));
      OneStepListed(g, root, Edge(a.name, u));
    }
    forall a | a in attributes && a.checker == Container(u)
      ensures Entry(u, "/" + a.name + "/[i]") in Gathered(g, [], [], root)
    {
      var e := Edge(a.name + "/[i]", u);
      var i :| 0 <= i < |attributes| && attributes[i] == a;
      assert i in Offering(g, attributes, e);
      OneStepListed(g, root, e);
      assert "/" + e.name == "/" + a.name + "/[i]";
    }
    var e := Edge("$" + g.types[u].name, u);
    if (u, root) in g.childOf {
      OneStepListed(g, root, e);
    }
    if a :| a in g.aggregates && Joins(a, root, u) {
      var i :| 0 <= i < |g.aggregates| && g.aggregates[i] == a;
      assert i in Joining(g.aggregates, root, u);
      OneStepListed(g, root, e);
    }
    assert "/" + e.name == "/$" + g.types[u].name;
  }

  /** The search's measure: on a stack of distinct types it is the number of types minus the depth. */
  lemma {:induction false} FreeCountsDown(g: Graph, stack: seq<TypeId>)
    requires Distinct(stack) && forall i :: 0 <= i < |stack| ==> stack[i] < |g.types|
    ensures |Free(g, stack)| == |g.types| - |stack|
  {
    if stack == [] {
      assert Free(g, stack) == Below(|g.types|);
    } else {
      var k := |stack| - 1;
      FreeCountsDown(g, stack[..k]);
      assert stack == stack[..k] + [stack[k]];
      assert Free(g, stack) == Free(g, stack[..k]) - {stack[k]};
      assert stack[k] in Free(g, stack[..k]);
    }
  }

  ghost function Below(n: nat): (s: set<TypeId>)
    ensures forall t :: t in s <==> 0 <= t < n
    ensures |s| == n
  {
    if n == 0 then {} else Below(n - 1) + {n - 1}
  }

  // ---------- the gatherer object ----------

  /** The entries' paths whose type is tid, in order. */
  function PathsOf(out: seq<Entry>, tid: TypeId): seq<string>
  {
    if out == [] then []
    else
      PathsOf(out[..|out| - 1], tid)
      + if out[|out| - 1].tid == tid then [out[|out| - 1].path] else []
  }

  lemma CountPath(out: seq<Entry>, e: Entry, tid: TypeId, path: string)
    ensures multiset(PathsOf(out + [e], tid))[path]
         == multiset(PathsOf(out, tid))[path] + if e == Entry(tid, path) then 1 else 0
  {
    assert (out + [e])[..|out|] == out;
    CountOne(e.path, path);
    CountConcat(PathsOf(out, tid), if e.tid == tid then [e.path] else [], path);
  }

  /** A path is given for a type as often as it was recorded for it. */
  lemma {:induction false} PathsAreRecorded(out: seq<Entry>, tid: TypeId, path: string)
    ensures multiset(PathsOf(out, tid))[path] == multiset(out)[Entry(tid, path)]
  {
    if out == [] {
      assert PathsOf(out, tid) == [];
    } else {
      var front, e := out[..|out| - 1], out[|out| - 1];
      assert out == front + [e];
      hide *;
      PathsAreRecorded(front, tid, path);
      CountPath(front, e, tid, path);
      CountConcat(front, [e], Entry(tid, path));
      CountOne(e, Entry(tid, path));
    }
  }

  class StaticInformation {
    const types: seq<TypeInfo>
    const childOf: set<(TypeId, TypeId)>
    const objectType: TypeId
    var m_aggregates: seq<(TypeId, TypeId)>
    var m_noTids: seq<string>
    var m_output: seq<Entry>
    var m_currentPath: seq<string>
    var m_alreadyProcessed: seq<TypeId>

    function G(): Graph
      reads `m_aggregates
    {
      Graph(types, childOf, objectType, m_aggregates)
    }

    constructor (types: seq<TypeInfo>, childOf: set<(TypeId, TypeId)>, objectType: TypeId)
      ensures G() == Graph(types, childOf, objectType, [])
      ensures m_noTids == [] && m_output == [] && m_currentPath == [] && m_alreadyProcessed == []
    {
      this.types, this.childOf, this.objectType := types, childOf, objectType;
      m_aggregates, m_noTids, m_output, m_currentPath, m_alreadyProcessed := [], [], [], [], [];
    }

    ghost predicate Registered(name: string)
    {
      exists t :: 0 <= t < |types| && types[t].name == name
    }

    /** Position of the type of that name, if registered. */
    method LookupByNameFailSafe(name: string) returns (found: Option<TypeId>)
      ensures found.Some? ==> found.value < |types| && types[found.value].name == name
      ensures found.None? <==> !Registered(name)
    {
      for i := 0 to |types|
        invariant forall t :: 0 <= t < i ==> types[t].name != name
      {
        if types[i].name == name { return Some(i); }
      }
      return None;
    }

    /** Records an aggregation when both names are registered, else the first name that is not. */
    method RecordAggregationInfo(a: string, b: string)
      requires Closed(G())
      modifies `m_aggregates, `m_noTids
      ensures Closed(G())
      ensures !Registered(a) ==> m_noTids == old(m_noTids) + [a] && m_aggregates == old(m_aggregates)
      ensures Registered(a) && !Registered(b) ==>
                m_noTids == old(m_noTids) + [b] && m_aggregates == old(m_aggregates)
      ensures Registered(a) && Registered(b) ==>
                && m_noTids == old(m_noTids)
                && exists x, y :: 0 <= x < |types| && 0 <= y < |types| && types[x].name == a && types[y].name == b
                                  && m_aggregates == old(m_aggregates) + [(x, y)]
    {
      var aTid := LookupByNameFailSafe(a);
      if aTid.None? {
        m_noTids := m_noTids + [a];
        return;
      }
      var bTid := LookupByNameFailSafe(b);
      if bTid.None? {
        m_noTids := m_noTids + [b];
        return;
      }
      m_aggregates := m_aggregates + [(aTid.value, bTid.value)];
    }

    method GetCurrentPath() returns (path: string)
      ensures path == Render(m_currentPath)
    {
      path := "";
      for i := 0 to |m_currentPath|
        invariant path == Render(m_currentPath[..i])
      {
        path := path + "/" + m_currentPath[i];
        assert m_currentPath[..i + 1][..i] == m_currentPath[..i];
      }
      assert m_currentPath[..|m_currentPath|] == m_currentPath;
    }

    method RecordOutput(tid: TypeId)
      modifies `m_output
      ensures m_output == old(m_output) + [Entry(tid, Render(m_currentPath))]
    {
      var path := GetCurrentPath();
      m_output := m_output + [Entry(tid, path)];
    }

    method HasAlreadyBeenProcessed(tid: TypeId) returns (found: bool)
      ensures found <==> tid in m_alreadyProcessed
    {
      for i := 0 to |m_alreadyProcessed|
        invariant tid !in m_alreadyProcessed[..i]
      {
        if m_alreadyProcessed[i] == tid { return true; }
      }
      return false;
    }

    /** Descends along one edge: push, search, pop. */
    method Follow(tid: TypeId, name: string, target: TypeId)
      requires Closed(G()) && target < |types| && tid < |types| && tid !in m_alreadyProcessed
      modifies `m_output, `m_currentPath, `m_alreadyProcessed
      ensures m_currentPath == old(m_currentPath) && m_alreadyProcessed == old(m_alreadyProcessed)
      ensures m_output == old(m_output)
                          + Gathered(G(), old(m_currentPath) + [name], old(m_alreadyProcessed) + [tid], target)
      decreases |Free(G(), m_alreadyProcessed)|, 0
    {
      PushShrinks(G(), m_alreadyProcessed, tid);
      m_currentPath := m_currentPath + [name];
      m_alreadyProcessed := m_alreadyProcessed + [tid];
      DoGather(target);
      m_alreadyProcessed := m_alreadyProcessed[..|m_alreadyProcessed| - 1];
      m_currentPath := m_currentPath[..|m_currentPath| - 1];
    }

    /** The loop over the type's attributes. */
    method FollowAttributes(tid: TypeId)
      requires Closed(G()) && tid < |types| && tid !in m_alreadyProcessed
      modifies `m_output, `m_currentPath, `m_alreadyProcessed
      ensures m_currentPath == old(m_currentPath) && m_alreadyProcessed == old(m_alreadyProcessed)
      ensures InRange(G(), AttributeEdges(G(), types[tid].attributes))
      ensures m_output == old(m_output) + GatheredOver(G(), m_currentPath, m_alreadyProcessed + [tid],
                                                       AttributeEdges(G(), types[tid].attributes))
      decreases |Free(G(), m_alreadyProcessed)|, 1
    {
      hide GatheredOver, Gathered, Free;
      var attributes := types[tid].attributes;
      ghost var taken: seq<Edge> := [];
      NothingTaken(G(), m_currentPath, m_alreadyProcessed + [tid]);
      assert attributes[..0] == [];
      for i := 0 to |attributes|
        invariant m_currentPath == old(m_currentPath) && m_alreadyProcessed == old(m_alreadyProcessed)
        invariant taken == AttributeEdges(G(), attributes[..i]) && InRange(G(), taken)
        invariant m_output == old(m_output) + GatheredOver(G(), m_currentPath, m_alreadyProcessed + [tid], taken)
      {
        assert attributes[..i + 1][..i] == attributes[..i];
        match attributes[i].checker {
          case Pointer(pointee) =>
            if pointee != objectType {
              Follow(tid, attributes[i].name, pointee);
              OneMore(G(), m_currentPath, m_alreadyProcessed + [tid], taken, Edge(attributes[i].name, pointee));
              taken := taken + [Edge(attributes[i].name, pointee)];
            }
          case Container(item) =>
            Follow(tid, attributes[i].name + "/[i]", item);
            OneMore(G(), m_currentPath, m_alreadyProcessed + [tid], taken, Edge(attributes[i].name + "/[i]", item));
            taken := taken + [Edge(attributes[i].name + "/[i]", item)];
          case Plain =>
        }
      }
      assert attributes[..|attributes|] == attributes;
    }

    /** The loop over the registered types for children. */
    method FollowChildren(tid: TypeId)
      requires Closed(G()) && tid < |types| && tid !in m_alreadyProcessed
      modifies `m_output, `m_currentPath, `m_alreadyProcessed
      ensures m_currentPath == old(m_currentPath) && m_alreadyProcessed == old(m_alreadyProcessed)
      ensures InRange(G(), ChildEdges(G(), tid, |types|))
      ensures m_output == old(m_output) + GatheredOver(G(), m_currentPath, m_alreadyProcessed + [tid],
                                                       ChildEdges(G(), tid, |types|))
      decreases |Free(G(), m_alreadyProcessed)|, 1
    {
      hide GatheredOver, Gathered, Free, Closed;
      ghost var taken: seq<Edge> := [];
      NothingTaken(G(), m_currentPath, m_alreadyProcessed + [tid]);
      for j := 0 to |types|
        invariant m_currentPath == old(m_currentPath) && m_alreadyProcessed == old(m_alreadyProcessed)
        invariant taken == ChildEdges(G(), tid, j) && InRange(G(), taken)
        invariant m_output == old(m_output) + GatheredOver(G(), m_currentPath, m_alreadyProcessed + [tid], taken)
      {
        if (j, tid) in childOf {
          Follow(tid, "$" + types[j].name, j);
          OneMore(G(), m_currentPath, m_alreadyProcessed + [tid], taken, Edge("$" + types[j].name, j));
          taken := taken + [Edge("$" + types[j].name, j)];
        }
      }
    }

    /** The loop over the recorded aggregations. */
    method FollowAggregates(tid: TypeId)
      requires Closed(G()) && tid < |types| && tid !in m_alreadyProcessed
      modifies `m_output, `m_currentPath, `m_alreadyProcessed
      ensures m_currentPath == old(m_currentPath) && m_alreadyProcessed == old(m_alreadyProcessed)
      ensures InRange(G(), AggregateEdges(G(), tid, m_aggregates))
      ensures m_output == old(m_output) + GatheredOver(G(), m_currentPath, m_alreadyProcessed + [tid],
                                                       AggregateEdges(G(), tid, m_aggregates))
      decreases |Free(G(), m_alreadyProcessed)|, 1
    {
      hide GatheredOver, Gathered, Free;
      ghost var taken: seq<Edge> := [];
      NothingTaken(G(), m_currentPath, m_alreadyProcessed + [tid]);
      assert m_aggregates[..0] == [];
      for k := 0 to |m_aggregates|
        invariant m_currentPath == old(m_currentPath) && m_alreadyProcessed == old(m_alreadyProcessed)
        invariant taken == AggregateEdges(G(), tid, m_aggregates[..k]) && InRange(G(), taken)
        invariant m_output == old(m_output) + GatheredOver(G(), m_currentPath, m_alreadyProcessed + [tid], taken)
      {
        assert m_aggregates[..k + 1][..k] == m_aggregates[..k];
        var item := m_aggregates[k];
        assert item in G().aggregates;
        if item.0 == tid || item.1 == tid {
          var other := if item.1 == tid then item.0 else item.1;
          Follow(tid, "$" + types[other].name, other);
          OneMore(G(), m_currentPath, m_alreadyProcessed + [tid], taken, Edge("$" + types[other].name, other));
          taken := taken + [Edge("$" + types[other].name, other)];
        }
      }
      assert m_aggregates[..|m_aggregates|] == m_aggregates;
    }

    method DoGather(tid: TypeId)
      requires Closed(G()) && tid < |types|
      modifies `m_output, `m_currentPath, `m_alreadyProcessed
      ensures m_currentPath == old(m_currentPath) && m_alreadyProcessed == old(m_alreadyProcessed)
      ensures m_output == old(m_output) + Gathered(G(), m_currentPath, m_alreadyProcessed, tid)
      decreases |Free(G(), m_alreadyProcessed)|, 2
    {
      hide GatheredOver, Free, AttributeEdges, ChildEdges, AggregateEdges, Render, InRange;
      var done := HasAlreadyBeenProcessed(tid);
      if done {
        return;
      }
      RecordOutput(tid);
      FollowAttributes(tid);
      FollowChildren(tid);
      FollowAggregates(tid);
      ghost var g, stack := G(), m_alreadyProcessed + [tid];
      ghost var own, children := AttributeEdges(g, types[tid].attributes), ChildEdges(g, tid, |types|);
      EdgesInRange(g, tid);
      OverConcat(g, m_currentPath, stack, own, children);
      OverConcat(g, m_currentPath, stack, own + children, AggregateEdges(g, tid, m_aggregates));
    }

    /** The in-place sort and de-duplication of the output works on a copy, so it changes nothing here. */
    method Gather(tid: TypeId)
      requires Closed(G()) && tid < |types| && m_currentPath == [] && m_alreadyProcessed == []
      modifies `m_output, `m_currentPath, `m_alreadyProcessed
      ensures m_currentPath == [] && m_alreadyProcessed == []
      ensures m_output == old(m_output) + Gathered(G(), [], [], tid)
      ensures exists walks :: Enumerates(G(), [], [], tid, m_output[|old(m_output)|..], walks)
      ensures forall entry :: entry in m_output[|old(m_output)|..] <==> CanBeReached(G(), tid, entry)
    {
      DoGather(tid);
      GatherIsAllSimpleWalks(G(), tid);
      assert m_output[|old(m_output)|..] == Gathered(G(), [], [], tid);
      hide Gathered, CanBeReached, Closed;
      forall entry ensures entry in Gathered(G(), [], [], tid) <==> CanBeReached(G(), tid, entry) {
        GatheredIff(G(), tid, entry);
      }
    }

    method Get(tid: TypeId) returns (paths: seq<string>)
      ensures paths == PathsOf(m_output, tid)
    {
      paths := [];
      for i := 0 to |m_output|
        invariant paths == PathsOf(m_output[..i], tid)
      {
        assert m_output[..i + 1][..i] == m_output[..i];
        if m_output[i].tid == tid {
          paths := paths + [m_output[i].path];
        }
      }
      assert m_output[..|m_output|] == m_output;
    }
  }

  lemma NothingTaken(g: Graph, path: seq<string>, stack: seq<TypeId>)
    requires Closed(g)
    ensures GatheredOver(g, path, stack, []) == []
  {
  }

  lemma {:induction false} OverConcat(g: Graph, path: seq<string>, stack: seq<TypeId>, a: seq<Edge>, b: seq<Edge>)
    requires Closed(g) && InRange(g, a) && InRange(g, b)
    ensures InRange(g, a + b)
    ensures GatheredOver(g, path, stack, a + b) == GatheredOver(g, path, stack, a) + GatheredOver(g, path, stack, b)
  {
    hide GatheredOver, Gathered, Closed;
    NothingTaken(g, path, stack);
    if b == [] {
      assert a + b == a;
    } else {
      var k := |b| - 1;
      OverConcat(g, path, stack, a, b[..k]);
      assert a + b == (a + b[..k]) + [b[k]] && b == b[..k] + [b[k]];
      OneMore(g, path, stack, a + b[..k], b[k]);
      OneMore(g, path, stack, b[..k], b[k]);
    }
  }

  lemma OneMore(g: Graph, path: seq<string>, stack: seq<TypeId>, taken: seq<Edge>, e: Edge)
    requires Closed(g) && InRange(g, taken) && e.target < |g.types|
    ensures InRange(g, taken + [e])
    ensures GatheredOver(g, path, stack, taken + [e])
         == GatheredOver(g, path, stack, taken) + Gathered(g, path + [e.name], stack, e.target)
  {
    assert (taken + [e])[..|taken|] == taken;
  }
}
