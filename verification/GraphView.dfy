/** Adjacency, degrees and connected components of the knowledge graph shown in the browser. */
module GraphView {

  /** Node ids are UUIDs, read as numbers. */
  type Id = nat

  datatype Edge = Edge(source: Id, target: Id)

  function Ids(nodes: seq<Id>): set<Id> {
    set n | n in nodes
  }

  /** An edge joins `a` and `b`, in either direction. */
  predicate Adjacent(edges: seq<Edge>, a: Id, b: Id) {
    Edge(a, b) in edges || Edge(b, a) in edges
  }

  // ---------------------------------------------------------------- neighborSets

  function Neighbors(edges: seq<Edge>, a: Id): set<Id> {
    (set e | e in edges && e.source == a :: e.target) + (set e | e in edges && e.target == a :: e.source)
  }

  lemma NeighborsAreAdjacent(edges: seq<Edge>, a: Id, b: Id)
    ensures b in Neighbors(edges, a) <==> Adjacent(edges, a, b)
  {
    if b in Neighbors(edges, a) {
      if e :| e in edges && e.source == a && e.target == b {
        assert e == Edge(a, b);
      } else {
        var e' :| e' in edges && e'.target == a && e'.source == b;
        assert e' == Edge(b, a);
      }
    }
    if Edge(a, b) in edges {
      assert Edge(a, b).source == a;
    }
    if Edge(b, a) in edges {
      assert Edge(b, a).target == a;
    }
  }

  method NeighborSets(nodes: seq<Id>, edges: seq<Edge>) returns (adj: map<Id, set<Id>>)
    ensures adj.Keys == Ids(nodes)
    ensures forall a :: ListsNeighbors(adj, edges, a)
  {
    adj := map[];
    for i := 0 to |nodes|
      invariant adj.Keys == Ids(nodes[..i])
      invariant forall a | a in adj :: adj[a] == {}
    {
      adj := adj[nodes[i] := {}];
    }
    assert nodes[..|nodes|] == nodes;
    for i := 0 to |edges|
      invariant adj.Keys == Ids(nodes)
      invariant forall a :: ListsNeighbors(adj, edges[..i], a)
    {
      var e := edges[i];
      ghost var before := adj;
      if e.source in adj {
        adj := adj[e.source := adj[e.source] + {e.target}];
      }
      if e.target in adj {
        adj := adj[e.target := adj[e.target] + {e.source}];
      }
      ghost var done := edges[..i + 1];
      forall a
        ensures ListsNeighbors(adj, done, a)
      {
        assert ListsNeighbors(before, edges[..i], a);
        if a in adj {
          NeighborsStep(edges, i, a, before[a], adj[a]);
        }
      }
    }
    assert edges[..|edges|] == edges;
  }

  predicate ListsNeighbors(adj: map<Id, set<Id>>, edges: seq<Edge>, a: Id) {
    a in adj ==> adj[a] == Neighbors(edges, a)
  }

  lemma NeighborsStep(edges: seq<Edge>, i: nat, a: Id, before: set<Id>, after: set<Id>)
    requires i < |edges| && before == Neighbors(edges[..i], a)
    requires after == before + (if edges[i].source == a then {edges[i].target} else {})
                             + (if edges[i].target == a then {edges[i].source} else {})
    ensures after == Neighbors(edges[..i + 1], a)
  {
    assert edges[..i + 1] == edges[..i] + [edges[i]];
  }

  // ---------------------------------------------------------------- degreeMap

  function EndsAt(e: Edge, n: Id): nat {
    (if e.source == n then 1 else 0) + (if e.target == n then 1 else 0)
  }

  /** The number of edge ends at `n`; a loop has two. */
  function DegreeIn(edges: seq<Edge>, n: Id): nat {
    if edges == [] then 0 else DegreeIn(edges[..|edges| - 1], n) + EndsAt(edges[|edges| - 1], n)
  }

  method DegreeMap(nodes: seq<Id>, edges: seq<Edge>) returns (deg: map<Id, nat>)
    ensures deg.Keys == Ids(nodes)
    ensures forall n | n in deg :: deg[n] == DegreeIn(edges, n)
  {
    deg := map[];
    for i := 0 to |nodes|
      invariant deg.Keys == Ids(nodes[..i])
      invariant forall n | n in deg :: deg[n] == 0
    {
      deg := deg[nodes[i] := 0];
    }
    assert nodes[..|nodes|] == nodes;
    for i := 0 to |edges|
      invariant deg.Keys == Ids(nodes)
      invariant forall n | n in deg :: deg[n] == DegreeIn(edges[..i], n)
    {
      var e := edges[i];
      assert edges[..i + 1][..i] == edges[..i];
      if e.source in deg {
        deg := deg[e.source := deg[e.source] + 1];
      }
      if e.target in deg {
        deg := deg[e.target := deg[e.target] + 1];
      }
    }
    assert edges[..|edges|] == edges;
  }

  // ---------------------------------------------------------------- reachability

  /** `p` walks along edges from node to node without leaving `known`. */
  predicate IsPath(known: set<Id>, edges: seq<Edge>, p: seq<Id>) {
    && |p| > 0
    && (forall i | 0 <= i < |p| :: p[i] in known)
    && forall i | 0 < i < |p| :: Adjacent(edges, p[i - 1], p[i])
  }

  ghost predicate Connected(known: set<Id>, edges: seq<Edge>, a: Id, b: Id) {
    exists p :: IsPath(known, edges, p) && p[0] == a && p[|p| - 1] == b
  }

  lemma ConnectedSelf(known: set<Id>, edges: seq<Edge>, a: Id)
    requires a in known
    ensures Connected(known, edges, a, a)
  {
    assert IsPath(known, edges, [a]);
  }

  lemma ConnectedStep(known: set<Id>, edges: seq<Edge>, a: Id, b: Id, c: Id)
    requires Connected(known, edges, a, b) && Adjacent(edges, b, c) && c in known
    ensures Connected(known, edges, a, c)
  {
    var p :| IsPath(known, edges, p) && p[0] == a && p[|p| - 1] == b;
    assert IsPath(known, edges, p + [c]);
  }

  lemma {:induction false} ConnectedJoin(known: set<Id>, edges: seq<Edge>, a: Id, p: seq<Id>, b: Id)
    requires Connected(known, edges, a, b)
    requires IsPath(known, edges, p) && p[|p| - 1] == b
    ensures Connected(known, edges, a, p[0])
    decreases |p|
  {
    if |p| > 1 {
      var front := p[..|p| - 1];
      assert Adjacent(edges, p[|p| - 2], p[|p| - 1]);
      ConnectedStep(known, edges, a, b, p[|p| - 2]);
      assert front[|front| - 1] == p[|p| - 2];
      ConnectedJoin(known, edges, a, front, p[|p| - 2]);
    }
  }

  /** Two nodes connected to a third are connected to each other. */
  lemma ConnectedThrough(known: set<Id>, edges: seq<Edge>, root: Id, a: Id, b: Id)
    requires Connected(known, edges, root, a) && Connected(known, edges, root, b)
    ensures Connected(known, edges, a, b)
  {
    var p :| IsPath(known, edges, p) && p[0] == root && p[|p| - 1] == a;
    ConnectedSelf(known, edges, a);
    ConnectedJoin(known, edges, a, p, a);
    var q :| IsPath(known, edges, q) && q[0] == root && q[|q| - 1] == b;
    WalkOn(known, edges, a, q, |q| - 1);
  }

  lemma {:induction false} WalkOn(known: set<Id>, edges: seq<Edge>, a: Id, q: seq<Id>, n: nat)
    requires IsPath(known, edges, q) && n < |q| && Connected(known, edges, a, q[0])
    ensures Connected(known, edges, a, q[n])
  {
    if n > 0 {
      WalkOn(known, edges, a, q, n - 1);
      ConnectedStep(known, edges, a, q[n - 1], q[n]);
    }
  }

  // ---------------------------------------------------------------- connectedComponents

  type Labels = map<Id, nat>

  /** Root `r` is a node labelled `r`. */
  predicate IsRoot(nodes: seq<Id>, roots: seq<nat>, comp: Labels, r: nat) {
    r < |roots| && roots[r] < |nodes| && nodes[roots[r]] in comp && comp[nodes[roots[r]]] == r
  }

  predicate RootsInOrder(roots: seq<nat>, q: nat, r: nat) {
    q < r < |roots| ==> roots[q] < roots[r]
  }

  /** Node `k`, if labelled, is connected to the root of its label and does not stand before it. */
  ghost predicate HasRoot(nodes: seq<Id>, edges: seq<Edge>, roots: seq<nat>, comp: Labels, k: nat) {
    k < |nodes| && nodes[k] in comp ==>
      var r := comp[nodes[k]];
      r < |roots| && roots[r] <= k && roots[r] < |nodes| && Connected(Ids(nodes), edges, nodes[roots[r]], nodes[k])
  }

  ghost predicate Rooted(nodes: seq<Id>, edges: seq<Edge>, roots: seq<nat>, comp: Labels) {
    && (forall r: nat | r < |roots| :: IsRoot(nodes, roots, comp, r))
    && (forall q: nat, r: nat :: RootsInOrder(roots, q, r))
    && (forall k: nat | k < |nodes| :: HasRoot(nodes, edges, roots, comp, k))
  }

  /** `b` next to the labelled node `a` is labelled, alike if it is known. */
  predicate AlikeAt(known: set<Id>, edges: seq<Edge>, comp: Labels, a: Id, b: Id)
    requires a in comp
  {
    Adjacent(edges, a, b) ==> b in comp && comp[b] <= comp[a] && (b in known ==> comp[b] == comp[a])
  }

  /** The neighbours of the labelled nodes outside `open` are labelled, the known ones alike. */
  ghost predicate Settled(known: set<Id>, edges: seq<Edge>, comp: Labels, open: set<Id>) {
    forall a, b | a in comp && a in known && a !in open :: AlikeAt(known, edges, comp, a, b)
  }

  ghost predicate Lends(known: set<Id>, edges: seq<Edge>, comp: Labels, x: Id, a: Id)
    requires x in comp
  {
    a in known && a in comp && Adjacent(edges, a, x) && comp[a] == comp[x]
  }

  /** An id outside the node list has the label of some node next to it. */
  ghost predicate Borrowed(known: set<Id>, edges: seq<Edge>, comp: Labels) {
    forall x | x in comp && x !in known :: exists a :: Lends(known, edges, comp, x, a)
  }

  function Mentioned(nodes: seq<Id>, edges: seq<Edge>): set<Id> {
    Ids(nodes) + (set e | e in edges :: e.source) + (set e | e in edges :: e.target)
  }

  lemma {:induction false} SettledAlongPath(known: set<Id>, edges: seq<Edge>, comp: Labels, p: seq<Id>)
    requires Settled(known, edges, comp, {}) && IsPath(known, edges, p) && p[0] in comp
    ensures p[|p| - 1] in comp && comp[p[|p| - 1]] == comp[p[0]]
    decreases |p|
  {
    if |p| > 1 {
      var front := p[..|p| - 1];
      SettledAlongPath(known, edges, comp, front);
      assert Adjacent(edges, p[|p| - 2], p[|p| - 1]);
      assert AlikeAt(known, edges, comp, p[|p| - 2], p[|p| - 1]);
    }
  }

  /** `a` and `b` have one label exactly when a path of edges between known nodes joins them. */
  ghost predicate LabelsExact(nodes: seq<Id>, edges: seq<Edge>, comp: Labels, a: Id, b: Id) {
    a in comp && b in comp && (comp[a] == comp[b] <==> Connected(Ids(nodes), edges, a, b))
  }

  ghost predicate LabelsComponents(nodes: seq<Id>, edges: seq<Edge>, comp: Labels) {
    forall a, b | a in nodes && b in nodes :: LabelsExact(nodes, edges, comp, a, b)
  }

  /** Labels count up from 0 in the order in which the node list first shows the components: every
      label below that of node `k` is carried by an earlier node. */
  ghost predicate NumberedInOrder(nodes: seq<Id>, comp: Labels) {
    forall k: nat, r: nat | k < |nodes| && nodes[k] in comp && r < comp[nodes[k]] :: ShownBefore(nodes, comp, k, r)
  }

  ghost predicate ShownBefore(nodes: seq<Id>, comp: Labels, k: nat, r: nat) {
    exists j: nat :: j < k && j < |nodes| && nodes[j] in comp && comp[nodes[j]] == r
  }

  /** Ids outside the node list: labelled exactly when next to a node, with the least label there. */
  ghost predicate LabelsStrays(nodes: seq<Id>, edges: seq<Edge>, comp: Labels) {
    && Borrowed(Ids(nodes), edges, comp)
    && forall a, x | a in nodes && a in comp :: AlikeAt(Ids(nodes), edges, comp, a, x)
  }

  method ConnectedComponents(nodes: seq<Id>, edges: seq<Edge>) returns (comp: Labels)
    ensures LabelsComponents(nodes, edges, comp)
    ensures NumberedInOrder(nodes, comp)
    ensures LabelsStrays(nodes, edges, comp)
  {
    var adj := NeighborSets(nodes, edges);
    ghost var known: set<Id> := Ids(nodes);
    ghost var roots: seq<nat> := [];
    comp := map[];
    var c := 0;
    for i := 0 to |nodes|
      invariant |roots| == c && Rooted(nodes, edges, roots, comp)
      invariant forall r | 0 <= r < c :: roots[r] < i
      invariant forall a | a in comp :: comp[a] < c
      invariant forall k | 0 <= k < i :: nodes[k] in comp
      invariant Settled(known, edges, comp, {}) && Borrowed(known, edges, comp)
      invariant comp.Keys <= Mentioned(nodes, edges)
    {
      if nodes[i] in comp {
        continue;
      }
      comp := Flood(nodes, edges, adj, i, c, comp, roots);
      roots := roots + [i];
      c := c + 1;
    }
    ComponentsDone(nodes, edges, roots, comp);
  }

  /** The worklist loop: label everything reachable from the unlabelled node `i`. */
  method Flood(nodes: seq<Id>, edges: seq<Edge>, adj: map<Id, set<Id>>, i: nat, c: nat, start: Labels,
               ghost roots: seq<nat>)
    returns (comp: Labels)
    requires adj.Keys == Ids(nodes) && forall a :: ListsNeighbors(adj, edges, a)
    requires i < |nodes| && nodes[i] !in start && forall k | 0 <= k < i :: nodes[k] in start
    requires |roots| == c && Rooted(nodes, edges, roots, start) && forall r | 0 <= r < c :: roots[r] < i
    requires forall a | a in start :: start[a] < c
    requires Settled(Ids(nodes), edges, start, {}) && Borrowed(Ids(nodes), edges, start)
    requires start.Keys <= Mentioned(nodes, edges)
    ensures start.Keys <= comp.Keys <= Mentioned(nodes, edges) && nodes[i] in comp
    ensures Rooted(nodes, edges, roots + [i], comp) && forall a | a in comp :: comp[a] < c + 1
    ensures Settled(Ids(nodes), edges, comp, {}) && Borrowed(Ids(nodes), edges, comp)
  {
    var stack := [nodes[i]];
    comp := start[nodes[i] := c];
    FloodStart(nodes, edges, i, c, start);
    while stack != []
      invariant Flooding(nodes, edges, i, c, start, comp, stack, {})
      decreases Mentioned(nodes, edges) - comp.Keys, |stack|
    {
      var cur := stack[|stack| - 1];
      stack := stack[..|stack| - 1];
      assert Open(stack) + {cur} == Open(stack + [cur]) + {};
      assert ListsNeighbors(adj, edges, cur);
      var todo := if cur in adj then adj[cur] else {};
      comp, stack := Expand(nodes, edges, i, c, start, comp, stack, cur, todo);
    }
    FloodDone(nodes, edges, i, c, start, comp, roots);
  }

  /** The state of the worklist: everything labelled and neither stacked nor in `busy` is settled. */
  ghost predicate Flooding(nodes: seq<Id>, edges: seq<Edge>, i: nat, c: nat, start: Labels, comp: Labels,
                           stack: seq<Id>, busy: set<Id>) {
    && Grown(nodes, edges, i, c, start, comp)
    && AllLabelled(stack, comp, c)
    && Settled(Ids(nodes), edges, comp, Open(stack) + busy)
  }

  /** One turn of the worklist: label and stack the unlabelled neighbours of `cur`. */
  method Expand(nodes: seq<Id>, edges: seq<Edge>, i: nat, c: nat, ghost start: Labels, comp0: Labels, stack0: seq<Id>,
                cur: Id, todo0: set<Id>)
    returns (comp: Labels, stack: seq<Id>)
    requires Flooding(nodes, edges, i, c, start, comp0, stack0, {cur}) && cur in comp0 && comp0[cur] == c
    requires todo0 == if cur in Ids(nodes) then Neighbors(edges, cur) else {}
    ensures Flooding(nodes, edges, i, c, start, comp, stack, {})
    ensures comp0.Keys <= comp.Keys && (comp.Keys == comp0.Keys ==> stack == stack0)
  {
    comp, stack := comp0, stack0;
    var todo := todo0;
    while todo != {}
      invariant Flooding(nodes, edges, i, c, start, comp, stack, {cur})
      invariant cur in comp && comp[cur] == c
      invariant todo <= todo0 <= todo + comp.Keys
      invariant comp0.Keys <= comp.Keys && (comp.Keys == comp0.Keys ==> stack == stack0)
      decreases todo
    {
      var nb :| nb in todo;
      todo := todo - {nb};
      if nb !in comp {
        NeighborsAreAdjacent(edges, cur, nb);
        FloodOne(nodes, edges, i, c, start, comp, stack, cur, nb);
        comp, stack := comp[nb := c], stack + [nb];
      }
    }
    SettleOne(nodes, edges, i, c, start, comp, cur, Open(stack) + {});
    assert Open(stack) + {} + {cur} == Open(stack) + {cur};
  }

  ghost function Open(stack: seq<Id>): set<Id> {
    set s | s in stack
  }

  predicate AllLabelled(stack: seq<Id>, comp: Labels, c: nat) {
    forall k | 0 <= k < |stack| :: stack[k] in comp && comp[stack[k]] == c
  }

  lemma FloodOne(nodes: seq<Id>, edges: seq<Edge>, i: nat, c: nat, start: Labels, comp: Labels, stack: seq<Id>,
                 cur: Id, nb: Id)
    requires Flooding(nodes, edges, i, c, start, comp, stack, {cur}) && cur in comp && comp[cur] == c
    requires cur in nodes && Adjacent(edges, cur, nb) && nb !in comp
    ensures Flooding(nodes, edges, i, c, start, comp[nb := c], stack + [nb], {cur})
  {
    LabelOne(nodes, edges, i, c, start, comp, cur, nb, Open(stack) + {cur});
    OpenPush(stack, nb, cur);
  }

  lemma OpenPush(stack: seq<Id>, nb: Id, cur: Id)
    ensures Open(stack + [nb]) + {cur} == Open(stack) + {cur} + {nb}
  {
  }

  /** What labelling from node `i` has done so far: `start` is intact, everything new has label `c`
      and is connected to node `i`. */
  ghost predicate Grown(nodes: seq<Id>, edges: seq<Edge>, i: nat, c: nat, start: Labels, comp: Labels) {
    && i < |nodes| && nodes[i] in comp && nodes[i] !in start
    && start.Keys <= comp.Keys <= Mentioned(nodes, edges)
    && (forall a | a in start :: comp[a] == start[a] && start[a] < c)
    && (forall a | a in comp && a !in start ::
         comp[a] == c && (a in nodes ==> Connected(Ids(nodes), edges, nodes[i], a)))
    && Settled(Ids(nodes), edges, start, {})
    && Borrowed(Ids(nodes), edges, comp)
  }

  lemma FloodStart(nodes: seq<Id>, edges: seq<Edge>, i: nat, c: nat, start: Labels)
    requires i < |nodes| && nodes[i] !in start && forall a | a in start :: start[a] < c
    requires Settled(Ids(nodes), edges, start, {}) && Borrowed(Ids(nodes), edges, start)
    requires start.Keys <= Mentioned(nodes, edges)
    ensures Flooding(nodes, edges, i, c, start, start[nodes[i] := c], [nodes[i]], {})
  {
    var comp := start[nodes[i] := c];
    ConnectedSelf(Ids(nodes), edges, nodes[i]);
    forall a, b | a in comp && a in Ids(nodes) && a !in Open([nodes[i]]) + {}
      ensures AlikeAt(Ids(nodes), edges, comp, a, b)
    {
      assert nodes[i] in [nodes[i]];
      assert AlikeAt(Ids(nodes), edges, start, a, b);
    }
    forall x | x in comp && x !in Ids(nodes)
      ensures exists a :: Lends(Ids(nodes), edges, comp, x, a)
    {
      var a :| Lends(Ids(nodes), edges, start, x, a);
      assert Lends(Ids(nodes), edges, comp, x, a);
    }
  }

  lemma LabelOne(nodes: seq<Id>, edges: seq<Edge>, i: nat, c: nat, start: Labels, comp: Labels, cur: Id, nb: Id,
                 open: set<Id>)
    requires Grown(nodes, edges, i, c, start, comp) && Settled(Ids(nodes), edges, comp, open)
    requires cur in comp && comp[cur] == c && cur in nodes && Adjacent(edges, cur, nb) && nb !in comp
    ensures Grown(nodes, edges, i, c, start, comp[nb := c])
    ensures Settled(Ids(nodes), edges, comp[nb := c], open + {nb})
  {
    var comp' := comp[nb := c];
    assert nb in Mentioned(nodes, edges) by {
      if Edge(cur, nb) in edges {
        assert Edge(cur, nb).target == nb;
      } else {
        assert Edge(nb, cur).source == nb;
      }
    }
    if nb in nodes {
      ConnectedStep(Ids(nodes), edges, nodes[i], cur, nb);
    }
    forall x | x in comp' && x !in Ids(nodes)
      ensures exists a :: Lends(Ids(nodes), edges, comp', x, a)
    {
      if x == nb {
        assert Lends(Ids(nodes), edges, comp', x, cur);
      } else {
        var a :| Lends(Ids(nodes), edges, comp, x, a);
        assert Lends(Ids(nodes), edges, comp', x, a);
      }
    }
    forall a, b | a in comp' && a in Ids(nodes) && a !in open + {nb}
      ensures AlikeAt(Ids(nodes), edges, comp', a, b)
    {
      assert AlikeAt(Ids(nodes), edges, comp, a, b);
    }
  }

  lemma SettleOne(nodes: seq<Id>, edges: seq<Edge>, i: nat, c: nat, start: Labels, comp: Labels, cur: Id, open: set<Id>)
    requires Grown(nodes, edges, i, c, start, comp) && Settled(Ids(nodes), edges, comp, open + {cur})
    requires cur in comp && comp[cur] == c
    requires cur in nodes ==> Neighbors(edges, cur) <= comp.Keys
    ensures Settled(Ids(nodes), edges, comp, open)
  {
    forall a, b | a in comp && a in Ids(nodes) && a !in open
      ensures AlikeAt(Ids(nodes), edges, comp, a, b)
    {
      if a != cur {
        assert AlikeAt(Ids(nodes), edges, comp, a, b);
      } else if Adjacent(edges, cur, b) {
        NeighborsAreAdjacent(edges, cur, b);
        assert b in start && b in nodes ==> AlikeAt(Ids(nodes), edges, start, b, cur);
      }
    }
  }

  lemma FloodDone(nodes: seq<Id>, edges: seq<Edge>, i: nat, c: nat, start: Labels, comp: Labels, roots: seq<nat>)
    requires Grown(nodes, edges, i, c, start, comp)
    requires |roots| == c && Rooted(nodes, edges, roots, start)
    requires (forall r | 0 <= r < c :: roots[r] < i) && forall k | 0 <= k < i :: nodes[k] in start
    ensures Rooted(nodes, edges, roots + [i], comp)
  {
    var roots' := roots + [i];
    forall r: nat | r < |roots'|
      ensures IsRoot(nodes, roots', comp, r)
    {
      assert r < c ==> IsRoot(nodes, roots, start, r);
    }
    forall q: nat, r: nat
      ensures RootsInOrder(roots', q, r)
    {
      assert RootsInOrder(roots, q, r);
    }
    forall k: nat | k < |nodes|
      ensures HasRoot(nodes, edges, roots', comp, k)
    {
      assert HasRoot(nodes, edges, roots, start, k);
    }
  }

  lemma ComponentsDone(nodes: seq<Id>, edges: seq<Edge>, roots: seq<nat>, comp: Labels)
    requires Rooted(nodes, edges, roots, comp) && Settled(Ids(nodes), edges, comp, {})
        && Borrowed(Ids(nodes), edges, comp)
    requires forall k | 0 <= k < |nodes| :: nodes[k] in comp
    ensures LabelsComponents(nodes, edges, comp) && NumberedInOrder(nodes, comp) && LabelsStrays(nodes, edges, comp)
  {
    forall a, b | a in nodes && b in nodes
      ensures LabelsExact(nodes, edges, comp, a, b)
    {
      PairDone(nodes, edges, roots, comp, a, b);
    }
    forall k: nat, r: nat | k < |nodes| && nodes[k] in comp && r < comp[nodes[k]]
      ensures ShownBefore(nodes, comp, k, r)
    {
      assert HasRoot(nodes, edges, roots, comp, k);
      assert RootsInOrder(roots, r, comp[nodes[k]]);
      assert IsRoot(nodes, roots, comp, r);
    }
  }

  lemma PairDone(nodes: seq<Id>, edges: seq<Edge>, roots: seq<nat>, comp: Labels, a: Id, b: Id)
    requires Rooted(nodes, edges, roots, comp) && Settled(Ids(nodes), edges, comp, {})
    requires a in nodes && b in nodes && a in comp && b in comp
    ensures LabelsExact(nodes, edges, comp, a, b)
  {
    var k: nat :| k < |nodes| && nodes[k] == a;
    var l: nat :| l < |nodes| && nodes[l] == b;
    assert HasRoot(nodes, edges, roots, comp, k) && HasRoot(nodes, edges, roots, comp, l);
    if comp[a] == comp[b] {
      ConnectedThrough(Ids(nodes), edges, nodes[roots[comp[a]]], a, b);
    }
    if Connected(Ids(nodes), edges, a, b) {
      var p :| IsPath(Ids(nodes), edges, p) && p[0] == a && p[|p| - 1] == b;
      SettledAlongPath(Ids(nodes), edges, comp, p);
    }
  }
}
