/** When the gathered output lists an entry twice. The documented sorting and de-duplication work on a copy and are
    lost, so the output is free of repetitions only where the registry makes it so. */
module GatherOutput {
  import opened Common
  import opened TypeGraph

  // ---------- repetitions and walks ----------

  /** Two different simple walks stand for the same entry. */
  ghost predicate Ambiguous(g: Graph, path: seq<string>, stack: seq<TypeId>, t: TypeId)
    requires Closed(g) && t < |g.types|
  {
    exists v, w :: SameEntry(g, path, stack, t, v, w)
  }

  ghost predicate SameEntry(g: Graph, path: seq<string>, stack: seq<TypeId>, t: TypeId, v: seq<nat>, w: seq<nat>)
    requires Closed(g) && t < |g.types|
  {
    && v != w
    && IsSimple(g, stack, t, v)
    && IsSimple(g, stack, t, w)
    && EntryOf(g, path, t, v) == EntryOf(g, path, t, w)
  }

  /** The search appends no entry twice exactly if no two of its walks stand for the same entry. */
  lemma DistinctIffUnambiguous(g: Graph, path: seq<string>, stack: seq<TypeId>, t: TypeId)
    requires Closed(g) && t < |g.types|
    ensures Distinct(Gathered(g, path, stack, t)) <==> !Ambiguous(g, path, stack, t)
  {
    var out := Gathered(g, path, stack, t);
    var walks := GatheredEnumerates(g, path, stack, t);
    hide Gathered, IsSimple, EntryOf, Closed;
    if Ambiguous(g, path, stack, t) {
      var v, w :| SameEntry(g, path, stack, t, v, w);
      assert v in walks && w in walks;
      var i :| 0 <= i < |walks| && walks[i] == v;
      var j :| 0 <= j < |walks| && walks[j] == w;
      assert out[i] == out[j];
    }
    if !Distinct(out) {
      var i, j :| 0 <= i < j < |out| && out[i] == out[j];
      assert walks[i] in walks && walks[j] in walks;
      assert SameEntry(g, path, stack, t, walks[i], walks[j]);
    }
  }

  // ---------- walks one step longer, and their beginnings ----------

  lemma {:induction false} WalkSnoc(g: Graph, t: TypeId, w: seq<nat>, i: nat)
    requires Closed(g) && t < |g.types| && IsWalk(g, t, w) && End(g, t, w) < |g.types|
    requires i < |Edges(g, End(g, t, w))|
    ensures var e := Edges(g, End(g, t, w))[i];
            && IsWalk(g, t, w + [i])
            && End(g, t, w + [i]) == e.target
            && Visits(g, t, w + [i]) == Visits(g, t, w) + [e.target]
            && Labels(g, t, w + [i]) == Labels(g, t, w) + [e.name]
    decreases |w|
  {
    hide Closed, Edges;
    EdgesInRange(g, t);
    var all := w + [i];
    if w == [] {
      assert all[1..] == [];
      var u := Edges(g, t)[i].target;
      assert IsWalk(g, u, []) && Visits(g, u, []) == [u] && Labels(g, u, []) == [] && End(g, u, []) == u;
    } else {
      var u := Edges(g, t)[w[0]].target;
      assert all[1..] == w[1..] + [i] && all[0] == w[0];
      WalkSnoc(g, u, w[1..], i);
    }
  }

  lemma {:induction false} WalkPrefix(g: Graph, t: TypeId, w: seq<nat>, n: nat)
    requires Closed(g) && t < |g.types| && IsWalk(g, t, w) && n <= |w|
    ensures IsWalk(g, t, w[..n]) && |Visits(g, t, w)| == |w| + 1
    ensures Visits(g, t, w[..n]) == Visits(g, t, w)[..n + 1]
    ensures End(g, t, w[..n]) == Visits(g, t, w)[n] < |g.types|
    decreases |w|
  {
    hide Closed, Edges;
    StartIsVisited(g, t, w);
    EdgesInRange(g, t);
    if n == 0 {
      assert w[..0] == [];
    } else {
      var u := Edges(g, t)[w[0]].target;
      assert w[..n][1..] == w[1..][..n - 1] && w[..n][0] == w[0];
      WalkPrefix(g, u, w[1..], n - 1);
    }
  }

  // ---------- registries whose paths can be told apart ----------

  /** A path step without a slash, or such a step with the suffix of a container's elements. */
  ghost predicate Legible(name: string)
  {
    Bare(name) || exists n :: Bare(n) && name == n + "/[i]"
  }

  ghost predicate Bare(name: string)
  {
    '/' !in name && name != "[i]"
  }

  /** Every step is legible and its name tells where it leads. */
  ghost predicate WellNamed(g: Graph)
    requires Closed(g)
  {
    forall t | 0 <= t < |g.types| :: StepsNamed(Edges(g, t))
  }

  ghost predicate StepsNamed(edges: seq<Edge>)
  {
    && (forall i :: 0 <= i < |edges| ==> Legible(edges[i].name))
    && forall i, j :: 0 <= i < |edges| && 0 <= j < |edges| && edges[i].name == edges[j].name ==> edges[i] == edges[j]
  }

  /** Text after the last slash, and text before it, are determined. */
  lemma LastSlash(s: string, t: string, x: string, y: string)
    requires '/' !in x && '/' !in y && s + "/" + x == t + "/" + y
    ensures s == t && x == y
  {
    var all := s + "/" + x;
    assert all[|s|] == '/' && all[|t|] == '/';
    assert forall k :: |s| < k < |all| ==> all[k] == x[k - |s| - 1];
    assert forall k :: |t| < k < |all| ==> all[k] == y[k - |t| - 1];
    assert s == all[..|s|] && t == all[..|s|];
    assert x == all[|s| + 1..] && y == all[|s| + 1..];
  }

  lemma NotAnElement(s: string, t: string, x: string, n: string)
    requires Bare(x)
    ensures s + "/" + x != t + "/" + (n + "/[i]")
  {
    if s + "/" + x == t + "/" + (n + "/[i]") {
      assert t + "/" + (n + "/[i]") == (t + "/" + n) + "/" + "[i]";
      LastSlash(s, t + "/" + n, x, "[i]");
      assert false;
    }
  }

  /** A rendered step and what precedes it are determined. */
  lemma LastStep(s: string, t: string, x: string, y: string)
    requires Legible(x) && Legible(y) && s + "/" + x == t + "/" + y
    ensures s == t && x == y
  {
    if Bare(x) && Bare(y) {
      LastSlash(s, t, x, y);
    } else if Bare(x) {
      var n :| Bare(n) && y == n + "/[i]";
      NotAnElement(s, t, x, n);
    } else if Bare(y) {
      var n :| Bare(n) && x == n + "/[i]";
      NotAnElement(t, s, y, n);
    } else {
      var m :| Bare(m) && x == m + "/[i]";
      var n :| Bare(n) && y == n + "/[i]";
      assert s + "/" + x == (s + "/" + m) + "/" + "[i]";
      assert t + "/" + y == (t + "/" + n) + "/" + "[i]";
      LastSlash(s + "/" + m, t + "/" + n, "[i]", "[i]");
      LastSlash(s, t, m, n);
    }
  }

  /** Legible steps can be read off the rendered path. */
  lemma {:induction false} RenderInjective(a: seq<string>, b: seq<string>)
    requires forall i :: 0 <= i < |a| ==> Legible(a[i])
    requires forall i :: 0 <= i < |b| ==> Legible(b[i])
    requires Render(a) == Render(b)
    ensures a == b
  {
    hide Legible;
    if a == [] || b == [] {
      assert a == b;
    } else {
      var x, y := a[|a| - 1], b[|b| - 1];
      LastStep(Render(a[..|a| - 1]), Render(b[..|b| - 1]), x, y);
      RenderInjective(a[..|a| - 1], b[..|b| - 1]);
      assert a == a[..|a| - 1] + [x] && b == b[..|b| - 1] + [y];
    }
  }

  lemma {:induction false} LabelsLegible(g: Graph, t: TypeId, w: seq<nat>)
    requires Closed(g) && WellNamed(g) && t < |g.types| && IsWalk(g, t, w)
    ensures |Labels(g, t, w)| == |w| && forall i :: 0 <= i < |w| ==> Legible(Labels(g, t, w)[i])
    decreases |w|
  {
    hide Closed, Edges, Legible;
    EdgesInRange(g, t);
    if w != [] {
      assert StepsNamed(Edges(g, t));
      LabelsLegible(g, Edges(g, t)[w[0]].target, w[1..]);
    }
  }

  // ---------- twin steps ----------

  /** The simple walk w from the root ends at a type with two identical steps to a type it has not met. */
  ghost predicate TwinSteps(g: Graph, root: TypeId, w: seq<nat>, i: nat, j: nat)
    requires Closed(g) && root < |g.types|
  {
    && IsSimple(g, [], root, w)
    && var t := End(g, root, w);
       && t < |g.types|
       && i < j < |Edges(g, t)|
       && Edges(g, t)[i] == Edges(g, t)[j]
       && Edges(g, t)[i].target !in Visits(g, root, w)
  }

  lemma SimpleSnoc(g: Graph, root: TypeId, w: seq<nat>, i: nat)
    requires Closed(g) && root < |g.types| && IsSimple(g, [], root, w) && End(g, root, w) < |g.types|
    requires i < |Edges(g, End(g, root, w))|
    requires Edges(g, End(g, root, w))[i].target !in Visits(g, root, w)
    ensures IsSimple(g, [], root, w + [i])
  {
    hide Closed, Edges, IsWalk, Visits;
    WalkSnoc(g, root, w, i);
  }

  /** Twin steps give two walks with the same entry. */
  lemma TwinsAreAmbiguous(g: Graph, root: TypeId, w: seq<nat>, i: nat, j: nat)
    requires Closed(g) && root < |g.types| && TwinSteps(g, root, w, i, j)
    ensures Ambiguous(g, [], [], root)
  {
    hide Closed, Edges, IsWalk, Visits, IsSimple;
    assert IsWalk(g, root, w) by { SimpleIsWalk(g, [], root, w); }
    SimpleSnoc(g, root, w, i);
    SimpleSnoc(g, root, w, j);
    WalkSnoc(g, root, w, i);
    WalkSnoc(g, root, w, j);
    assert (w + [i])[|w|] != (w + [j])[|w|];
    assert SameEntry(g, [], [], root, w + [i], w + [j]);
  }

  lemma SameFirstStep(g: Graph, t: TypeId, v: seq<nat>, w: seq<nat>)
    requires Closed(g) && WellNamed(g) && t < |g.types| && IsWalk(g, t, v) && IsWalk(g, t, w)
    requires v != [] && w != [] && Labels(g, t, v) == Labels(g, t, w)
    requires Edges(g, t)[v[0]].target < |g.types|
    ensures Edges(g, t)[v[0]] == Edges(g, t)[w[0]]
    ensures Labels(g, Edges(g, t)[v[0]].target, v[1..]) == Labels(g, Edges(g, t)[v[0]].target, w[1..])
  {
    hide Closed, Edges, Legible;
    EdgesInRange(g, t);
    var edges := Edges(g, t);
    assert StepsNamed(edges);
    assert Labels(g, t, v)[0] == edges[v[0]].name && Labels(g, t, w)[0] == edges[w[0]].name;
    var u := edges[v[0]].target;
    assert Labels(g, u, v[1..]) == Labels(g, t, v)[1..];
    assert Labels(g, u, w[1..]) == Labels(g, t, w)[1..];
  }

  /** Where two walks with the same names part, they take twin steps. */
  lemma {:induction false} PartAtTwins(g: Graph, t: TypeId, v: seq<nat>, w: seq<nat>) returns (n: nat)
    requires Closed(g) && WellNamed(g) && t < |g.types| && IsWalk(g, t, v) && IsWalk(g, t, w)
    requires v != w && |v| == |w| && Labels(g, t, v) == Labels(g, t, w)
    ensures |Visits(g, t, v)| == |v| + 1
    ensures n < |v| && v[..n] == w[..n] && v[n] != w[n] && IsWalk(g, t, v[..n])
    ensures var u := End(g, t, v[..n]);
            && u < |g.types|
            && v[n] < |Edges(g, u)|
            && w[n] < |Edges(g, u)|
            && Edges(g, u)[v[n]] == Edges(g, u)[w[n]]
            && Edges(g, u)[v[n]].target == Visits(g, t, v)[n + 1]
    decreases |v|
  {
    hide Closed, Edges, Legible;
    EdgesInRange(g, t);
    SameFirstStep(g, t, v, w);
    var u := Edges(g, t)[v[0]].target;
    StartIsVisited(g, u, v[1..]);
    if v[0] != w[0] {
      n := 0;
      assert v[..0] == [] == w[..0];
    } else {
      assert v == [v[0]] + v[1..] && w == [w[0]] + w[1..];
      var k := PartAtTwins(g, u, v[1..], w[1..]);
      hide WellNamed, Labels;
      n := k + 1;
      assert v[..n] == [v[0]] + v[1..][..k] && w[..n] == [w[0]] + w[1..][..k];
      assert v[..n][1..] == v[1..][..k];
    }
  }

  lemma AmbiguousHasTwins(g: Graph, root: TypeId, v: seq<nat>, w: seq<nat>)
    requires Closed(g) && WellNamed(g) && root < |g.types| && SameEntry(g, [], [], root, v, w)
    ensures exists x, i, j :: TwinSteps(g, root, x, i, j)
  {
    hide Closed, Edges, Legible, WellNamed, Visits, End, Labels, IsWalk;
    LabelsLegible(g, root, v);
    LabelsLegible(g, root, w);
    assert [] + Labels(g, root, v) == Labels(g, root, v) && [] + Labels(g, root, w) == Labels(g, root, w);
    RenderInjective(Labels(g, root, v), Labels(g, root, w));
    var n := PartAtTwins(g, root, v, w);
    WalkPrefix(g, root, v, n);
    var i, j := if v[n] < w[n] then v[n] else w[n], if v[n] < w[n] then w[n] else v[n];
    assert TwinSteps(g, root, v[..n], i, j);
  }

  /** With names that can be told apart, gathering from a root lists no entry twice exactly if no walk without
      repetition reaches a type that has two identical steps to a type not met before. */
  lemma DistinctIffNoTwins(g: Graph, root: TypeId)
    requires Closed(g) && WellNamed(g) && root < |g.types|
    ensures Distinct(Gathered(g, [], [], root)) <==> !exists w, i, j :: TwinSteps(g, root, w, i, j)
  {
    hide Closed, WellNamed, TwinSteps, SameEntry, Gathered, Distinct;
    DistinctIffUnambiguous(g, [], [], root);
    if exists w, i, j :: TwinSteps(g, root, w, i, j) {
      var w, i, j :| TwinSteps(g, root, w, i, j);
      TwinsAreAmbiguous(g, root, w, i, j);
    }
    if Ambiguous(g, [], [], root) {
      var v, w :| SameEntry(g, [], [], root, v, w);
      AmbiguousHasTwins(g, root, v, w);
    }
  }

  // ---------- the order of the output ----------

  /** The entries are in order of their type numbers, as sorting would leave them. */
  ghost predicate ByType(out: seq<Entry>)
  {
    forall i, j :: 0 <= i < j < |out| ==> out[i].tid <= out[j].tid
  }

  ghost predicate Climbs(ts: seq<TypeId>)
  {
    forall i, j :: 0 <= i < j < |ts| ==> ts[i] < ts[j]
  }

  /** What the search lists below one edge is a piece of what it lists below all. */
  lemma {:induction false} PieceOf(g: Graph, path: seq<string>, stack: seq<TypeId>, edges: seq<Edge>, k: nat)
    returns (a: nat, b: nat)
    requires Closed(g) && InRange(g, edges) && k < |edges|
    ensures a <= b <= |GatheredOver(g, path, stack, edges)|
    ensures GatheredOver(g, path, stack, edges)[a..b]
         == Gathered(g, path + [edges[k].name], stack, edges[k].target)
    decreases |edges|
  {
    hide Gathered, Closed;
    var n := |edges| - 1;
    var front := GatheredOver(g, path, stack, edges[..n]);
    var last := Gathered(g, path + [edges[n].name], stack, edges[n].target);
    assert GatheredOver(g, path, stack, edges) == front + last;
    if k == n {
      a, b := |front|, |front| + |last|;
    } else {
      a, b := PieceOf(g, path, stack, edges[..n], k);
      assert (front + last)[a..b] == front[a..b];
    }
  }

  lemma FirstEntry(g: Graph, path: seq<string>, stack: seq<TypeId>, t: TypeId)
    requires Closed(g) && t < |g.types| && t !in stack
    ensures InRange(g, Edges(g, t))
    ensures Gathered(g, path, stack, t)
         == [Entry(t, Render(path))] + GatheredOver(g, path, stack + [t], Edges(g, t))
  {
    EdgesInRange(g, t);
    hide Edges, Closed;
  }

  lemma PieceInOrder(out: seq<Entry>, t: TypeId, x: Entry, rest: seq<Entry>, a: nat, b: nat)
    requires ByType(out) && out == [x] + rest && x.tid == t && a <= b <= |rest|
    ensures ByType(rest[a..b]) && forall i :: 0 <= i < b - a ==> t <= rest[a..b][i].tid
  {
    var piece := rest[a..b];
    assert out[0] == x && forall i :: 0 <= i < |piece| ==> piece[i] == out[a + i + 1];
    forall i | 0 <= i < |piece| ensures t <= piece[i].tid { assert piece[i] == out[a + i + 1]; }
    forall i, j | 0 <= i < j < |piece| ensures piece[i].tid <= piece[j].tid {
      assert piece[i] == out[a + i + 1] && piece[j] == out[a + j + 1];
    }
  }

  /** An output in order of type numbers forces every walk it lists to climb in type number: one walk that steps down
      to a type of a lower number is enough to leave the output unsorted. */
  lemma {:induction false} SortedClimbs(g: Graph, path: seq<string>, stack: seq<TypeId>, t: TypeId, w: seq<nat>)
    requires Closed(g) && t < |g.types| && IsSimple(g, stack, t, w) && ByType(Gathered(g, path, stack, t))
    ensures IsWalk(g, t, w) && Climbs(Visits(g, t, w))
    decreases |w|
  {
    SimpleIsWalk(g, stack, t, w);
    StartIsVisited(g, t, w);
    assert Visits(g, t, w)[0] == t && t !in stack;
    if w == [] {
      assert Visits(g, t, w) == [t];
    } else {
      FirstEntry(g, path, stack, t);
      var edges := Edges(g, t);
      var e := edges[w[0]];
      SimpleStep(g, stack, t, w);
      assert Visits(g, t, w) == [t] + Visits(g, e.target, w[1..]);
      hide Edges, Closed, Visits, IsWalk, IsSimple, ByType, Gathered, GatheredOver;
      var all := GatheredOver(g, path, stack + [t], edges);
      var a, b := PieceOf(g, path, stack + [t], edges, w[0]);
      PieceInOrder(Gathered(g, path, stack, t), t, Entry(t, Render(path)), all, a, b);
      SortedClimbs(g, path + [e.name], stack + [t], e.target, w[1..]);
      StepUp(g, path + [e.name], stack, t, e.target, w[1..]);
    }
  }

  lemma StepUp(g: Graph, path: seq<string>, stack: seq<TypeId>, t: TypeId, u: TypeId, w: seq<nat>)
    requires Closed(g) && u < |g.types| && IsSimple(g, stack + [t], u, w)
    requires forall i :: 0 <= i < |Gathered(g, path, stack + [t], u)| ==> t <= Gathered(g, path, stack + [t], u)[i].tid
    requires IsWalk(g, u, w) && Climbs(Visits(g, u, w))
    ensures Climbs([t] + Visits(g, u, w))
  {
    StartIsVisited(g, u, w);
    var vs := Visits(g, u, w);
    assert vs[0] == u && u !in stack + [t];
    assert u != t by { assert (stack + [t])[|stack|] == t; }
    FirstEntry(g, path, stack + [t], u);
    assert Gathered(g, path, stack + [t], u)[0].tid == u;
    hide Closed, Visits, IsWalk, IsSimple, Gathered;
    var all := [t] + vs;
    forall i, j | 0 <= i < j < |all| ensures all[i] < all[j] {
      assert t < vs[0] && (j > 1 ==> vs[0] < vs[j - 1]);
      assert all[j] == vs[j - 1] && (i > 0 ==> all[i] == vs[i - 1]);
    }
  }

  // ---------- an aggregation recorded twice ----------

  const NODE := "ns3::Node"
  const ICMP := "ns3::Icmpv4L4Protocol"
  const NODE_LIST := "NodeList"

  /** Object, a node, a protocol and the list of nodes, with the aggregation of node and protocol recorded twice. */
  const TWICE: Graph := Graph([TypeInfo("ns3::Object", []), TypeInfo(NODE, []), TypeInfo(ICMP, []),
                               TypeInfo("ns3::NodeListPriv", [Attribute(NODE_LIST, Container(1))])],
                              {(1, 0), (2, 0), (3, 0)}, 0, [(1, 2), (1, 2)])

  /** The paths of the node and of the protocol, from the list of nodes. */
  const TO_NODE: seq<string> := [NODE_LIST + "/[i]"]
  const TO_ICMP: seq<string> := TO_NODE + ["$" + ICMP]

  lemma TwiceIsClosed()
    ensures Closed(TWICE)
  {
  }

  lemma {:induction false} NoChildren(g: Graph, t: TypeId, n: nat)
    requires n <= |g.types| && forall k: TypeId :: (k, t) !in g.childOf
    ensures ChildEdges(g, t, n) == []
  {
    if n > 0 {
      NoChildren(g, t, n - 1);
    }
  }

  /** The steps from a childless type when one aggregation is recorded twice and is the only one. */
  lemma EdgesFrom(g: Graph, t: TypeId, a: (TypeId, TypeId))
    requires Closed(g) && t < |g.types| && g.aggregates == [a, a] && forall k: TypeId :: (k, t) !in g.childOf
    ensures a.0 < |g.types| && a.1 < |g.types|
    ensures Edges(g, t)
         == AttributeEdges(g, g.types[t].attributes) + (AggregateEdge(g, t, a) + AggregateEdge(g, t, a))
  {
    NoChildren(g, t, |g.types|);
    assert g.aggregates[0] == a && a in g.aggregates;
    hide ChildEdges, AttributeEdges, AggregateEdge, Closed;
    assert [a, a][..1] == [a] && [a][..0] == [] && AggregateEdges(g, t, []) == [];
    assert AggregateEdges(g, t, [a]) == [] + AggregateEdge(g, t, a);
  }

  lemma ContainerEdge(g: Graph, name: string, item: TypeId)
    ensures AttributeEdges(g, [Attribute(name, Container(item))]) == [Edge(name + "/[i]", item)]
  {
    var list := [Attribute(name, Container(item))];
    assert list[..0] == [] && AttributeEdges(g, list[..0]) == [];
  }

  lemma EdgesOfTwice()
    ensures Closed(TWICE)
    ensures Edges(TWICE, 1) == [Edge("$" + ICMP, 2), Edge("$" + ICMP, 2)]
    ensures Edges(TWICE, 2) == [Edge("$" + NODE, 1), Edge("$" + NODE, 1)]
    ensures Edges(TWICE, 3) == [Edge(NODE_LIST + "/[i]", 1)]
  {
    TwiceIsClosed();
    hide Edges, Closed, NODE, ICMP, NODE_LIST;
    EdgesFrom(TWICE, 1, (1, 2));
    EdgesFrom(TWICE, 2, (1, 2));
    EdgesFrom(TWICE, 3, (1, 2));
    ContainerEdge(TWICE, NODE_LIST, 1);
  }

  lemma OverOne(g: Graph, path: seq<string>, stack: seq<TypeId>, e: Edge)
    requires Closed(g) && e.target < |g.types|
    ensures InRange(g, [e]) && GatheredOver(g, path, stack, [e]) == Gathered(g, path + [e.name], stack, e.target)
  {
    NothingTaken(g, path, stack);
    hide *;
    assert InRange(g, []) by { NoneInRange(g); }
    OneMore(g, path, stack, [], e);
    assert [] + [e] == [e];
  }

  lemma NoneInRange(g: Graph)
    ensures InRange(g, [])
  {
  }

  lemma OverTwo(g: Graph, path: seq<string>, stack: seq<TypeId>, e: Edge)
    requires Closed(g) && e.target < |g.types|
    ensures InRange(g, [e, e])
    ensures var below := Gathered(g, path + [e.name], stack, e.target);
            GatheredOver(g, path, stack, [e, e]) == below + below
  {
    hide *;
    OverOne(g, path, stack, e);
    OneMore(g, path, stack, [e], e);
    assert [e] + [e] == [e, e];
  }

  lemma OnStack(g: Graph, path: seq<string>, stack: seq<TypeId>, t: TypeId)
    requires Closed(g) && t < |g.types| && t in stack
    ensures Gathered(g, path, stack, t) == []
  {
  }

  lemma ProtocolBelow(g: Graph, path: seq<string>, back: Edge)
    requires Closed(g) && |g.types| == 4 && Edges(g, 2) == [back, back] && back.target == 1
    ensures Gathered(g, path, [3, 1], 2) == [Entry(2, Render(path))]
  {
    hide *;
    assert [3, 1] + [2] == [3, 1, 2];
    FirstEntry(g, path, [3, 1], 2);
    OverTwo(g, path, [3, 1, 2], back);
    OnStack(g, path + [back.name], [3, 1, 2], 1);
  }

  lemma NodeBelow(g: Graph, path: seq<string>, on: Edge, back: Edge)
    requires Closed(g) && |g.types| == 4
    requires Edges(g, 1) == [on, on] && on.target == 2 && Edges(g, 2) == [back, back] && back.target == 1
    ensures var below := Entry(2, Render(path + [on.name]));
            Gathered(g, path, [3], 1) == [Entry(1, Render(path)), below, below]
  {
    hide *;
    assert [3] + [1] == [3, 1];
    ProtocolBelow(g, path + [on.name], back);
    FirstEntry(g, path, [3], 1);
    OverTwo(g, path, [3, 1], on);
  }

  lemma RenderNothing()
    ensures Render([]) == ""
  {
  }

  lemma ListBelow(g: Graph, to: Edge, on: Edge, back: Edge)
    requires Closed(g) && |g.types| == 4 && Edges(g, 3) == [to] && to.target == 1
    requires Edges(g, 1) == [on, on] && on.target == 2 && Edges(g, 2) == [back, back] && back.target == 1
    ensures var below := Entry(2, Render([to.name] + [on.name]));
            Gathered(g, [], [], 3) == [Entry(3, ""), Entry(1, Render([to.name])), below, below]
  {
    hide *;
    RenderNothing();
    assert [] + [3] == [3] && [] + [to.name] == [to.name];
    NodeBelow(g, [to.name], on, back);
    FirstEntry(g, [], [], 3);
    OverOne(g, [], [3], to);
  }

  lemma TwinsInTwice()
    ensures Closed(TWICE) && TwinSteps(TWICE, 3, [0], 0, 1)
  {
    EdgesOfTwice();
    assert |TWICE.types| == 4;
    hide Edges, Closed, NODE, ICMP, TWICE, IsSimple, NODE_LIST;
    EmptyWalk(TWICE, [], [], 3);
    assert [] + [0] == [0] && Visits(TWICE, 3, []) == [3] && End(TWICE, 3, []) == 3;
    hide Visits, End, IsWalk;
    SimpleIsWalk(TWICE, [], 3, []);
    SimpleSnoc(TWICE, 3, [], 0);
    WalkSnoc(TWICE, 3, [], 0);
  }

  lemma RepeatsAndFalls(out: seq<Entry>)
    requires |out| == 4 && out[2] == out[3] && out[0].tid > out[1].tid
    ensures !Distinct(out) && !ByType(out)
  {
  }

  /** Gathering from the list of nodes, a root of the configuration namespace, lists the protocol's path twice, and
      begins with the type of the highest number: the output is neither free of repetitions nor sorted. */
  lemma RecordedTwiceRepeats()
    ensures Closed(TWICE) && |TWICE.types| == 4
    ensures Gathered(TWICE, [], [], 3)
         == [Entry(3, ""), Entry(1, Render(TO_NODE)), Entry(2, Render(TO_ICMP)), Entry(2, Render(TO_ICMP))]
    ensures !Distinct(Gathered(TWICE, [], [], 3)) && !ByType(Gathered(TWICE, [], [], 3))
    ensures TwinSteps(TWICE, 3, [0], 0, 1)
  {
    EdgesOfTwice();
    TwinsInTwice();
    assert |TWICE.types| == 4 && TO_NODE == [NODE_LIST + "/[i]"] && TO_ICMP == [NODE_LIST + "/[i]"] + ["$" + ICMP];
    hide *;
    ListBelow(TWICE, Edge(NODE_LIST + "/[i]", 1), Edge("$" + ICMP, 2), Edge("$" + NODE, 1));
    RepeatsAndFalls(Gathered(TWICE, [], [], 3));
  }
}
