/** The graph endpoint: directed link rows collapsed into one undirected edge per pair of visible
    pages, with a running degree per page. */
module EdgeCollapse {
  import opened GraphView

  datatype Origin = Vector | Explicit

  /** A row of `wiki_links`. */
  datatype Link = Link(source: Id, target: Id, relation: string, score: real, origin: Origin)

  datatype GraphEdge = GraphEdge(source: Id, target: Id, score: real, relation: string, origin: Origin)

  /** The pages shown and the score floor of one request. */
  datatype View = View(nodes: set<Id>, minScore: real) {
    predicate Keeps(l: Link) {
      l.source in nodes && l.target in nodes && !(l.score < minScore)
    }
  }

  /** An unordered pair of ids, the smaller one first; a loop pairs an id with itself. */
  datatype Pair = Pair(lo: Id, hi: Id)

  function Unordered(a: Id, b: Id): Pair {
    if a <= b then Pair(a, b) else Pair(b, a)
  }

  function PairOf(l: Link): Pair {
    Unordered(l.source, l.target)
  }

  function EdgePair(e: GraphEdge): Pair {
    Unordered(e.source, e.target)
  }

  function Ends(edges: seq<GraphEdge>): seq<Edge> {
    seq(|edges|, k requires 0 <= k < |edges| => Edge(edges[k].source, edges[k].target))
  }

  // ---------------------------------------------------------------- one pair

  /** The surviving rows of one unordered pair, in the order they were read. */
  function RowsOf(v: View, links: seq<Link>, pair: Pair): seq<Link> {
    if links == [] then []
    else
      var l, before := links[|links| - 1], RowsOf(v, links[..|links| - 1], pair);
      if v.Keeps(l) && PairOf(l) == pair then before + [l] else before
  }

  lemma {:induction false} RowsExact(v: View, links: seq<Link>, pair: Pair, l: Link)
    ensures l in RowsOf(v, links, pair) <==> l in links && v.Keeps(l) && PairOf(l) == pair
  {
    if links != [] {
      RowsExact(v, links[..|links| - 1], pair, l);
      assert l in links <==> l in links[..|links| - 1] || l == links[|links| - 1];
    }
  }

  function FromRow(l: Link): GraphEdge {
    GraphEdge(l.source, l.target, l.score, l.relation, l.origin)
  }

  function Upgrade(e: GraphEdge, l: Link): GraphEdge {
    if l.origin.Explicit? then e.(origin := Explicit, score := if e.score < l.score then l.score else e.score) else e
  }

  /** The edge the rows of one pair end up as. */
  function Merged(rows: seq<Link>): GraphEdge
    requires rows != []
  {
    if |rows| == 1 then FromRow(rows[0]) else Upgrade(Merged(rows[..|rows| - 1]), rows[|rows| - 1])
  }

  // ---------------------------------------------------------------- the loop

  /** One edge per unordered pair with a surviving row, each the merge of its pair's rows. */
  ghost predicate IsCollapse(v: View, links: seq<Link>, edges: seq<GraphEdge>) {
    && (forall k: nat | k < |edges| :: IsMerge(v, links, edges, k))
    && (forall j: nat, k: nat | j < k < |edges| :: OtherPair(edges, j, k))
    && (forall l | l in links && v.Keeps(l) :: exists k: nat :: Covers(edges, k, l))
  }

  predicate IsMerge(v: View, links: seq<Link>, edges: seq<GraphEdge>, k: nat)
    requires k < |edges|
  {
    var rows := RowsOf(v, links, EdgePair(edges[k])); rows != [] && edges[k] == Merged(rows)
  }

  predicate OtherPair(edges: seq<GraphEdge>, j: nat, k: nat)
    requires j < |edges| && k < |edges|
  {
    EdgePair(edges[j]) != EdgePair(edges[k])
  }

  predicate Covers(edges: seq<GraphEdge>, k: nat, l: Link) {
    k < |edges| && EdgePair(edges[k]) == PairOf(l)
  }

  /** `byPair` finds the edge of a pair. */
  ghost predicate Indexes(byPair: map<Pair, nat>, edges: seq<GraphEdge>) {
    && (forall k: nat | k < |edges| :: FoundAt(byPair, edges, k))
    && forall p | p in byPair :: byPair[p] < |edges| && EdgePair(edges[byPair[p]]) == p
  }

  predicate FoundAt(byPair: map<Pair, nat>, edges: seq<GraphEdge>, k: nat) {
    k < |edges| && EdgePair(edges[k]) in byPair && byPair[EdgePair(edges[k])] == k
  }

  predicate CountsEnds(degree: map<Id, nat>, nodes: set<Id>, edges: seq<Edge>) {
    degree.Keys == nodes && forall n | n in degree :: degree[n] == DegreeIn(edges, n)
  }

  method CollapseEdges(v: View, links: seq<Link>) returns (edges: seq<GraphEdge>, degree: map<Id, nat>)
    ensures IsCollapse(v, links, edges)
    ensures CountsEnds(degree, v.nodes, Ends(edges))
  {
    edges, degree := [], map n | n in v.nodes :: 0;
    var byPair: map<Pair, nat> := map[];
    for i := 0 to |links|
      invariant IsCollapse(v, links[..i], edges)
      invariant Indexes(byPair, edges)
      invariant CountsEnds(degree, v.nodes, Ends(edges))
    {
      var link := links[i];
      if !v.Keeps(link) {
        SkipRow(v, links, i, edges);
      } else if PairOf(link) !in byPair {
        OpenPair(v, links, i, edges, byPair);
        CountEnds(degree, v.nodes, edges, FromRow(link));
        byPair := byPair[PairOf(link) := |edges|];
        edges := edges + [FromRow(link)];
        degree := degree[link.source := degree[link.source] + 1];
        degree := degree[link.target := degree[link.target] + 1];
      } else {
        var k := byPair[PairOf(link)];
        MergeInto(v, links, i, edges, byPair, k);
        if link.origin.Explicit? {
          var kept := edges[k].score;
          edges := edges[k := edges[k].(origin := Explicit, score := if kept < link.score then link.score else kept)];
        } else {
          assert edges[k := edges[k]] == edges;
        }
      }
    }
    assert links[..|links|] == links;
  }

  lemma CountEnds(degree: map<Id, nat>, nodes: set<Id>, edges: seq<GraphEdge>, e: GraphEdge)
    requires CountsEnds(degree, nodes, Ends(edges)) && e.source in nodes && e.target in nodes
    ensures var once := degree[e.source := degree[e.source] + 1];
      CountsEnds(once[e.target := once[e.target] + 1], nodes, Ends(edges + [e]))
  {
    forall n | n in nodes
      ensures DegreeIn(Ends(edges + [e]), n) == DegreeIn(Ends(edges), n) + EndsAt(Edge(e.source, e.target), n)
    {
      DegreeGrows(edges, e, n);
    }
  }

  lemma DegreeGrows(edges: seq<GraphEdge>, e: GraphEdge, n: Id)
    ensures DegreeIn(Ends(edges + [e]), n) == DegreeIn(Ends(edges), n) + EndsAt(Edge(e.source, e.target), n)
  {
    assert Ends(edges + [e])[..|edges|] == Ends(edges);
  }

  lemma RowsStep(v: View, links: seq<Link>, i: nat, pair: Pair)
    requires i < |links|
    ensures RowsOf(v, links[..i + 1], pair) ==
            var before := RowsOf(v, links[..i], pair);
            if v.Keeps(links[i]) && PairOf(links[i]) == pair then before + [links[i]] else before
  {
    assert links[..i + 1][..i] == links[..i];
  }

  lemma OpenPair(v: View, links: seq<Link>, i: nat, edges: seq<GraphEdge>, byPair: map<Pair, nat>)
    requires i < |links| && v.Keeps(links[i]) && IsCollapse(v, links[..i], edges)
    requires Indexes(byPair, edges) && PairOf(links[i]) !in byPair
    ensures IsCollapse(v, links[..i + 1], edges + [FromRow(links[i])])
    ensures Indexes(byPair[PairOf(links[i]) := |edges|], edges + [FromRow(links[i])])
  {
    forall k: nat | k < |edges|
      ensures EdgePair(edges[k]) != PairOf(links[i])
    {
      assert FoundAt(byPair, edges, k);
    }
    var link := links[i];
    var edges' := edges + [FromRow(link)];
    var now := links[..i + 1];
    forall k: nat | k < |edges'|
      ensures IsMerge(v, now, edges', k)
    {
      RowsStep(v, links, i, EdgePair(edges'[k]));
      if k < |edges| {
        assert IsMerge(v, links[..i], edges, k);
      } else {
        if RowsOf(v, links[..i], PairOf(link)) != [] {
          RowsHaveEdge(v, links[..i], edges, PairOf(link));
          assert false;
        }
      }
    }
    forall j: nat, k: nat | j < k < |edges'|
      ensures OtherPair(edges', j, k)
    {
      assert k < |edges| ==> OtherPair(edges, j, k);
    }
    CoversStep(v, links, i, edges, edges', |edges|);
    var byPair' := byPair[PairOf(link) := |edges|];
    forall k: nat | k < |edges'|
      ensures FoundAt(byPair', edges', k)
    {
      assert k < |edges| ==> FoundAt(byPair, edges, k);
    }
  }

  lemma RowsHaveEdge(v: View, links: seq<Link>, edges: seq<GraphEdge>, pair: Pair)
    requires IsCollapse(v, links, edges) && RowsOf(v, links, pair) != []
    ensures exists k: nat :: k < |edges| && EdgePair(edges[k]) == pair
  {
    var l := RowsOf(v, links, pair)[0];
    RowsExact(v, links, pair, l);
    var k: nat :| Covers(edges, k, l);
  }

  /** Every surviving row stays covered when edges keep their pairs and row `i` has edge `at`. */
  lemma CoversStep(v: View, links: seq<Link>, i: nat, edges: seq<GraphEdge>, edges': seq<GraphEdge>, at: nat)
    requires i < |links| && forall l | l in links[..i] && v.Keeps(l) :: exists k: nat :: Covers(edges, k, l)
    requires |edges| <= |edges'| && forall k: nat | k < |edges| :: EdgePair(edges'[k]) == EdgePair(edges[k])
    requires v.Keeps(links[i]) ==> Covers(edges', at, links[i])
    ensures forall l | l in links[..i + 1] && v.Keeps(l) :: exists k: nat :: Covers(edges', k, l)
  {
    forall l | l in links[..i + 1] && v.Keeps(l)
      ensures exists k: nat :: Covers(edges', k, l)
    {
      if l in links[..i] {
        var k: nat :| Covers(edges, k, l);
        assert Covers(edges', k, l);
      }
    }
  }

  lemma MergeInto(v: View, links: seq<Link>, i: nat, edges: seq<GraphEdge>, byPair: map<Pair, nat>, k: nat)
    requires i < |links| && v.Keeps(links[i]) && IsCollapse(v, links[..i], edges) && Indexes(byPair, edges)
    requires k < |edges| && EdgePair(edges[k]) == PairOf(links[i])
    ensures IsCollapse(v, links[..i + 1], edges[k := Upgrade(edges[k], links[i])])
    ensures Indexes(byPair, edges[k := Upgrade(edges[k], links[i])])
    ensures Ends(edges[k := Upgrade(edges[k], links[i])]) == Ends(edges)
  {
    var edges' := edges[k := Upgrade(edges[k], links[i])];
    var now := links[..i + 1];
    forall j: nat | j < |edges'|
      ensures IsMerge(v, now, edges', j)
    {
      RowsStep(v, links, i, EdgePair(edges[j]));
      assert IsMerge(v, links[..i], edges, j);
      if j != k {
        assert if j < k then OtherPair(edges, j, k) else OtherPair(edges, k, j);
      } else {
        MergedStep(RowsOf(v, links[..i], EdgePair(edges[k])), links[i]);
      }
    }
    forall a: nat, b: nat | a < b < |edges'|
      ensures OtherPair(edges', a, b)
    {
      assert OtherPair(edges, a, b);
    }
    CoversStep(v, links, i, edges, edges', k);
    forall j: nat | j < |edges'|
      ensures FoundAt(byPair, edges', j)
    {
      assert FoundAt(byPair, edges, j);
    }
  }

  lemma MergedStep(rows: seq<Link>, l: Link)
    requires rows != []
    ensures Merged(rows + [l]) == Upgrade(Merged(rows), l)
  {
    assert (rows + [l])[..|rows|] == rows;
  }

  lemma SkipRow(v: View, links: seq<Link>, i: nat, edges: seq<GraphEdge>)
    requires i < |links| && !v.Keeps(links[i]) && IsCollapse(v, links[..i], edges)
    ensures IsCollapse(v, links[..i + 1], edges)
  {
    var now := links[..i + 1];
    forall j: nat | j < |edges|
      ensures IsMerge(v, now, edges, j)
    {
      RowsStep(v, links, i, EdgePair(edges[j]));
      assert IsMerge(v, links[..i], edges, j);
    }
    CoversStep(v, links, i, edges, edges, 0);
  }

  // ---------------------------------------------------------------- order does not matter

  /** Some surviving row joins `n` and `o`. */
  ghost predicate Linked(v: View, links: seq<Link>, n: Id, o: Id) {
    exists l :: l in links && v.Keeps(l) && PairOf(l) == Unordered(n, o)
  }

  /** The ids `n` shares an edge with; `n` itself when it has a loop. */
  function Partners(edges: seq<GraphEdge>, n: Id): set<Id> {
    (set e | e in edges && e.source == n :: e.target) + (set e | e in edges && e.target == n :: e.source)
  }

  predicate DistinctPairs(edges: seq<GraphEdge>) {
    forall j: nat, k: nat | j < k < |edges| :: OtherPair(edges, j, k)
  }

  lemma {:induction false} MergedKeepsPair(rows: seq<Link>, pair: Pair)
    requires rows != [] && forall l | l in rows :: PairOf(l) == pair
    ensures EdgePair(Merged(rows)) == pair
  {
    if |rows| > 1 {
      MergedKeepsPair(rows[..|rows| - 1], pair);
    } else {
      assert rows[0] in rows;
    }
  }

  lemma PartnersAreLinked(v: View, links: seq<Link>, edges: seq<GraphEdge>, n: Id, o: Id)
    requires IsCollapse(v, links, edges)
    ensures o in Partners(edges, n) <==> Linked(v, links, n, o)
  {
    if o in Partners(edges, n) {
      var e :| e in edges && EdgePair(e) == Unordered(n, o);
      var k: nat :| k < |edges| && edges[k] == e;
      assert IsMerge(v, links, edges, k);
      RowsExact(v, links, EdgePair(e), RowsOf(v, links, EdgePair(e))[0]);
    }
    if l :| l in links && v.Keeps(l) && PairOf(l) == Unordered(n, o) {
      var k: nat :| Covers(edges, k, l);
      assert edges[k] in edges;
    }
  }

  /** The running degree counts partners, a loop twice. */
  lemma {:induction false} DegreeCountsPartners(edges: seq<GraphEdge>, n: Id)
    requires DistinctPairs(edges)
    ensures DegreeIn(Ends(edges), n) == |Partners(edges, n)| + if n in Partners(edges, n) then 1 else 0
  {
    if edges != [] {
      var front, e := edges[..|edges| - 1], edges[|edges| - 1];
      assert edges == front + [e];
      assert DistinctPairs(front) by {
        forall j: nat, k: nat | j < k < |front|
          ensures OtherPair(front, j, k)
        {
          assert OtherPair(edges, j, k);
        }
      }
      DegreeCountsPartners(front, n);
      DegreeGrows(front, e, n);
      PartnersStep(front, e, n);
      if e.source == n || e.target == n {
        NewPartner(edges, n, if e.source == n then e.target else e.source);
      }
    }
  }

  lemma PartnersStep(front: seq<GraphEdge>, e: GraphEdge, n: Id)
    ensures Partners(front + [e], n) ==
      if e.source == n || e.target == n then Partners(front, n) + {if e.source == n then e.target else e.source}
      else Partners(front, n)
  {
  }

  lemma NewPartner(edges: seq<GraphEdge>, n: Id, o: Id)
    requires edges != [] && DistinctPairs(edges) && EdgePair(edges[|edges| - 1]) == Unordered(n, o)
    ensures o !in Partners(edges[..|edges| - 1], n)
  {
    var front := edges[..|edges| - 1];
    forall k: nat | k < |front|
      ensures EdgePair(front[k]) != Unordered(n, o)
    {
      assert OtherPair(edges, k, |edges| - 1);
    }
  }

  lemma {:induction false} MergedOrigin(rows: seq<Link>)
    requires rows != []
    ensures Merged(rows).origin == Explicit <==> exists l :: l in rows && l.origin == Explicit
  {
    if |rows| > 1 {
      var front := rows[..|rows| - 1];
      MergedOrigin(front);
      assert forall l :: l in rows <==> l in front || l == rows[|rows| - 1];
    } else {
      assert rows[0] in rows;
    }
  }

  function PairsShown(edges: seq<GraphEdge>): set<(Pair, Origin)> {
    set e | e in edges :: (EdgePair(e), e.origin)
  }

  /** An edge is explicit exactly when some surviving row of its pair is. */
  lemma OriginExact(v: View, links: seq<Link>, edges: seq<GraphEdge>, k: nat)
    requires IsCollapse(v, links, edges) && k < |edges|
    ensures edges[k].origin == Explicit <==>
      exists l :: l in links && v.Keeps(l) && PairOf(l) == EdgePair(edges[k]) && l.origin == Explicit
  {
    assert IsMerge(v, links, edges, k);
    var rows := RowsOf(v, links, EdgePair(edges[k]));
    MergedOrigin(rows);
    forall l
      ensures l in rows <==> l in links && v.Keeps(l) && PairOf(l) == EdgePair(edges[k])
    {
      RowsExact(v, links, EdgePair(edges[k]), l);
    }
  }

  lemma ShownAlike(v: View, links: seq<Link>, links': seq<Link>, edges: seq<GraphEdge>, edges': seq<GraphEdge>)
    requires IsCollapse(v, links, edges) && IsCollapse(v, links', edges')
    requires forall l :: l in links <==> l in links'
    ensures PairsShown(edges) <= PairsShown(edges')
  {
    forall e | e in edges
      ensures (EdgePair(e), e.origin) in PairsShown(edges')
    {
      var k: nat :| k < |edges| && edges[k] == e;
      assert IsMerge(v, links, edges, k);
      var l := RowsOf(v, links, EdgePair(e))[0];
      RowsExact(v, links, EdgePair(e), l);
      var k': nat :| Covers(edges', k', l);
      OriginExact(v, links, edges, k);
      OriginExact(v, links', edges', k');
      assert edges'[k'] in edges';
    }
  }

  /** Whatever order the rows are read in: the same pairs, the same origins, the same degrees. */
  lemma CollapseIgnoresOrder(v: View, links: seq<Link>, links': seq<Link>, edges: seq<GraphEdge>,
                             edges': seq<GraphEdge>)
    requires multiset(links) == multiset(links')
    requires IsCollapse(v, links, edges) && IsCollapse(v, links', edges')
    ensures PairsShown(edges) == PairsShown(edges')
    ensures forall n :: DegreeIn(Ends(edges), n) == DegreeIn(Ends(edges'), n)
  {
    forall l
      ensures l in links <==> l in links'
    {
      assert l in links <==> l in multiset(links);
      assert l in links' <==> l in multiset(links');
    }
    ShownAlike(v, links, links', edges, edges');
    ShownAlike(v, links', links, edges', edges);
    forall n
      ensures DegreeIn(Ends(edges), n) == DegreeIn(Ends(edges'), n)
    {
      DegreeCountsPartners(edges, n);
      DegreeCountsPartners(edges', n);
      forall o
        ensures o in Partners(edges, n) <==> o in Partners(edges', n)
      {
        PartnersAreLinked(v, links, edges, n, o);
        PartnersAreLinked(v, links', edges', n, o);
      }
      assert Partners(edges, n) == Partners(edges', n);
    }
  }

  // ---------------------------------------------------------------- handshake

  function DegreeSum(nodes: seq<Id>, edges: seq<Edge>): nat {
    if nodes == [] then 0 else DegreeSum(nodes[..|nodes| - 1], edges) + DegreeIn(edges, nodes[|nodes| - 1])
  }

  predicate NoRepeats(nodes: seq<Id>) {
    forall i, j | 0 <= i < j < |nodes| :: nodes[i] != nodes[j]
  }

  lemma {:induction false} SumGrows(nodes: seq<Id>, edges: seq<Edge>)
    requires NoRepeats(nodes) && edges != []
    ensures var e := edges[|edges| - 1];
      DegreeSum(nodes, edges) == DegreeSum(nodes, edges[..|edges| - 1])
        + (if e.source in nodes then 1 else 0) + (if e.target in nodes then 1 else 0)
  {
    if nodes != [] {
      SumGrows(nodes[..|nodes| - 1], edges);
      assert nodes == nodes[..|nodes| - 1] + [nodes[|nodes| - 1]];
    }
  }

  /** The degrees of the pages shown sum to twice the number of edges. */
  lemma {:induction false} DegreesSumToTwiceEdges(nodes: seq<Id>, edges: seq<Edge>)
    requires NoRepeats(nodes) && forall e | e in edges :: e.source in nodes && e.target in nodes
    ensures DegreeSum(nodes, edges) == 2 * |edges|
  {
    if edges == [] {
      NoEdgesNoDegree(nodes);
    } else {
      SumGrows(nodes, edges);
      assert edges[|edges| - 1] in edges;
      DegreesSumToTwiceEdges(nodes, edges[..|edges| - 1]);
    }
  }

  lemma NoEdgesNoDegree(nodes: seq<Id>)
    ensures DegreeSum(nodes, []) == 0
  {
  }

  /** Every end of a collapsed edge is a page shown. */
  lemma EndsAreShown(v: View, links: seq<Link>, edges: seq<GraphEdge>)
    requires IsCollapse(v, links, edges)
    ensures forall e | e in Ends(edges) :: e.source in v.nodes && e.target in v.nodes
  {
    forall k: nat | k < |edges|
      ensures edges[k].source in v.nodes && edges[k].target in v.nodes
    {
      assert IsMerge(v, links, edges, k);
      var l := RowsOf(v, links, EdgePair(edges[k]))[0];
      RowsExact(v, links, EdgePair(edges[k]), l);
    }
  }

  // ---------------------------------------------------------------- when the score ignores order

  predicate IsTop(rows: seq<Link>, l: Link) {
    forall k | 0 <= k < |rows| :: rows[k].score <= l.score
  }

  /** The rows of a pair fix its score whatever their order: either an explicit row tops them all, or
      there is no explicit row and all scores are equal. */
  predicate ScoreSettled(rows: seq<Link>) {
    || (exists e | e in rows :: e.origin == Explicit && IsTop(rows, e))
    || ((forall l | l in rows :: l.origin != Explicit) && forall l, m | l in rows && m in rows :: l.score == m.score)
  }

  predicate Explains(l: Link, score: real) {
    l.origin == Explicit && l.score == score
  }

  lemma {:induction false} MergedScore(rows: seq<Link>)
    requires rows != []
    ensures Merged(rows).score >= rows[0].score
    ensures forall l | l in rows && l.origin == Explicit :: Merged(rows).score >= l.score
    ensures Merged(rows).score == rows[0].score || exists l | l in rows :: Explains(l, Merged(rows).score)
  {
    if |rows| > 1 {
      var front, last := rows[..|rows| - 1], rows[|rows| - 1];
      MergedScore(front);
      assert forall l :: l in rows <==> l in front || l == last;
      if Merged(rows).score != Merged(front).score {
        assert Explains(last, Merged(rows).score);
      }
    }
  }

  function MoveFirst(rows: seq<Link>, k: nat): seq<Link>
    requires k < |rows|
  {
    [rows[k]] + (rows[..k] + rows[k + 1..])
  }

  lemma MoveFirstPermutes(rows: seq<Link>, k: nat)
    requires k < |rows|
    ensures multiset(MoveFirst(rows, k)) == multiset(rows)
  {
    assert rows == rows[..k] + ([rows[k]] + rows[k + 1..]);
  }

  predicate SameScore(rows: seq<Link>, q: seq<Link>)
    requires rows != [] && q != []
  {
    Merged(q).score == Merged(rows).score
  }

  /** The score shown for a pair is independent of the order of its rows exactly when it is settled. */
  lemma ScoreIgnoresOrderIff(rows: seq<Link>)
    requires rows != []
    ensures ScoreSettled(rows) <==> forall q: seq<Link> | q != [] && multiset(q) == multiset(rows) :: SameScore(rows, q)
  {
    if ScoreSettled(rows) {
      forall q: seq<Link> | q != [] && multiset(q) == multiset(rows)
        ensures SameScore(rows, q)
      {
        SettledScore(rows, q);
      }
    } else {
      UnsettledScore(rows);
    }
  }

  lemma SameMembers(rows: seq<Link>, q: seq<Link>)
    requires multiset(q) == multiset(rows)
    ensures forall l :: l in rows <==> l in q
  {
    forall l
      ensures l in rows <==> l in q
    {
      assert l in rows <==> l in multiset(rows);
      assert l in q <==> l in multiset(q);
    }
  }

  lemma SettledScore(rows: seq<Link>, q: seq<Link>)
    requires rows != [] && q != [] && multiset(q) == multiset(rows) && ScoreSettled(rows)
    ensures SameScore(rows, q)
  {
    SameMembers(rows, q);
    MergedScore(rows);
    MergedScore(q);
    assert rows[0] in rows && q[0] in q;
  }

  lemma UnsettledScore(rows: seq<Link>)
    requires rows != [] && !ScoreSettled(rows)
    ensures exists q: seq<Link> :: q != [] && multiset(q) == multiset(rows) && !SameScore(rows, q)
  {
    var i, j := Rivals(rows);
    MoveFirstPermutes(rows, i);
    MoveFirstPermutes(rows, j);
    assert !SameScore(rows, MoveFirst(rows, i)) || !SameScore(rows, MoveFirst(rows, j));
  }

  /** Two rows of an unsettled pair that give different scores when read first. */
  lemma Rivals(rows: seq<Link>) returns (i: nat, j: nat)
    requires rows != [] && !ScoreSettled(rows)
    ensures i < |rows| && j < |rows| && Merged(MoveFirst(rows, i)).score != Merged(MoveFirst(rows, j)).score
  {
    if e :| e in rows && e.origin == Explicit {
      i :| 0 <= i < |rows| && rows[i] == e;
      var q := MoveFirst(rows, i);
      MoveFirstPermutes(rows, i);
      SameMembers(rows, q);
      MergedScore(q);
      var top := if Merged(q).score == q[0].score then e else var l :| l in q && Explains(l, Merged(q).score); l;
      assert top in rows && top.origin == Explicit && !IsTop(rows, top);
      j :| 0 <= j < |rows| && rows[j].score > top.score;
      MergedScore(MoveFirst(rows, j));
    } else {
      var l, m :| l in rows && m in rows && l.score != m.score;
      i :| 0 <= i < |rows| && rows[i] == l;
      j :| 0 <= j < |rows| && rows[j] == m;
      MoveFirstPermutes(rows, i);
      MoveFirstPermutes(rows, j);
      SameMembers(rows, MoveFirst(rows, i));
      SameMembers(rows, MoveFirst(rows, j));
      MergedScore(MoveFirst(rows, i));
      MergedScore(MoveFirst(rows, j));
    }
  }

  /** The only explicit rows written here score 1.0, and no similarity is greater. */
  predicate ExplicitScoreOne(rows: seq<Link>) {
    forall l | l in rows :: if l.origin == Explicit then l.score == 1.0 else l.score <= 1.0
  }

  /** A pair with such an explicit row shows 1.0 in every order; without one the order matters unless all
      its scores are equal. */
  lemma ExplicitOneSettles(rows: seq<Link>)
    requires rows != [] && ExplicitScoreOne(rows)
    ensures ScoreSettled(rows) <==> (exists e | e in rows :: e.origin == Explicit)
                                    || forall l, m | l in rows && m in rows :: l.score == m.score
    ensures (exists e | e in rows :: e.origin == Explicit) ==> Merged(rows).score == 1.0
  {
    MergedScore(rows);
    assert rows[0] in rows;
    if e :| e in rows && e.origin == Explicit {
      assert IsTop(rows, e);
    }
  }

  /** A vector row read first keeps its higher score; read second it is ignored. */
  lemma ScoreDependsOnOrder()
    ensures var x, a := Link(1, 2, "related", 0.9, Vector), Link(2, 1, "related", 0.5, Explicit);
      Merged([x, a]).score == 0.9 && Merged([a, x]).score == 0.5
  {
    var x, a := Link(1, 2, "related", 0.9, Vector), Link(2, 1, "related", 0.5, Explicit);
    assert [x, a][..1] == [x] && [a, x][..1] == [a];
  }

  // ---------------------------------------------------------------- what an edge shows

  predicate Joins(source: Id, target: Id, a: Id, b: Id) {
    (source == a && target == b) || (source == b && target == a)
  }

  /** Row `i` links the two pages, both are shown, and its score is not below the floor. */
  predicate Survives(v: View, links: seq<Link>, i: nat, a: Id, b: Id) {
    && i < |links| && Joins(links[i].source, links[i].target, a, b)
    && links[i].source in v.nodes && links[i].target in v.nodes && links[i].score >= v.minScore
  }

  predicate IsFirstRow(v: View, links: seq<Link>, i: nat, a: Id, b: Id) {
    Survives(v, links, i, a, b) && forall j: nat | j < i :: !Survives(v, links, j, a, b)
  }

  lemma JoinsIsPair(l: Link, a: Id, b: Id)
    ensures Joins(l.source, l.target, a, b) <==> PairOf(l) == Unordered(a, b)
  {
  }

  /** Two pages share one edge if a row that survives links them, in whichever direction, and else none. */
  lemma EdgeShownIff(v: View, links: seq<Link>, edges: seq<GraphEdge>, a: Id, b: Id)
    requires IsCollapse(v, links, edges)
    ensures (exists k: nat :: k < |edges| && Joins(edges[k].source, edges[k].target, a, b)) <==>
      exists i: nat :: Survives(v, links, i, a, b)
    ensures forall j: nat, k: nat | j < k < |edges| && Joins(edges[j].source, edges[j].target, a, b) ::
      !Joins(edges[k].source, edges[k].target, a, b)
  {
    if i: nat :| Survives(v, links, i, a, b) {
      JoinsIsPair(links[i], a, b);
      assert links[i] in links && v.Keeps(links[i]);
      var k: nat :| Covers(edges, k, links[i]);
      assert Joins(edges[k].source, edges[k].target, a, b);
    }
    if k: nat :| k < |edges| && Joins(edges[k].source, edges[k].target, a, b) {
      assert IsMerge(v, links, edges, k);
      var l := RowsOf(v, links, EdgePair(edges[k]))[0];
      RowsExact(v, links, EdgePair(edges[k]), l);
      var i :| 0 <= i < |links| && links[i] == l;
      assert Survives(v, links, i, a, b);
    }
    forall j: nat, k: nat | j < k < |edges| && Joins(edges[j].source, edges[j].target, a, b)
      ensures !Joins(edges[k].source, edges[k].target, a, b)
    {
      assert OtherPair(edges, j, k);
    }
  }

  /** The rows of a pair are the surviving ones, the first one first. */
  lemma {:induction false} FirstRow(v: View, links: seq<Link>, a: Id, b: Id)
    requires RowsOf(v, links, Unordered(a, b)) != []
    ensures exists i: nat :: IsFirstRow(v, links, i, a, b) && links[i] == RowsOf(v, links, Unordered(a, b))[0]
  {
    var front, n := links[..|links| - 1], |links| - 1;
    JoinsIsPair(links[n], a, b);
    if RowsOf(v, front, Unordered(a, b)) != [] {
      FirstRow(v, front, a, b);
      var i: nat :| IsFirstRow(v, front, i, a, b) && front[i] == RowsOf(v, front, Unordered(a, b))[0];
      assert forall j: nat | j <= i :: Survives(v, links, j, a, b) <==> Survives(v, front, j, a, b);
      assert IsFirstRow(v, links, i, a, b);
    } else {
      forall j: nat | j < n
        ensures !Survives(v, links, j, a, b)
      {
        JoinsIsPair(links[j], a, b);
        assert links[j] == front[j];
        RowsExact(v, front, Unordered(a, b), links[j]);
      }
      assert IsFirstRow(v, links, n, a, b);
    }
  }

  lemma {:induction false} MergedShape(rows: seq<Link>)
    requires rows != []
    ensures Merged(rows).source == rows[0].source && Merged(rows).target == rows[0].target
    ensures Merged(rows).relation == rows[0].relation
  {
    if |rows| > 1 {
      MergedShape(rows[..|rows| - 1]);
    }
  }

  /** An edge has direction and relation of the first row of its pair; its score is that row's, or that of
      an explicit row, and none of these is greater. */
  lemma EdgeFollowsFirst(v: View, links: seq<Link>, edges: seq<GraphEdge>, k: nat) returns (i: nat)
    requires IsCollapse(v, links, edges) && k < |edges|
    ensures var e := edges[k];
      && IsFirstRow(v, links, i, e.source, e.target)
      && e.source == links[i].source && e.target == links[i].target && e.relation == links[i].relation
      && e.score >= links[i].score
      && (forall j: nat | Survives(v, links, j, e.source, e.target) && links[j].origin == Explicit ::
           e.score >= links[j].score)
      && (e.score == links[i].score
          || exists j: nat :: Survives(v, links, j, e.source, e.target) && Explains(links[j], e.score))
  {
    var e := edges[k];
    var rows := RowsOf(v, links, EdgePair(e));
    assert IsMerge(v, links, edges, k);
    MergedShape(rows);
    MergedScore(rows);
    FirstRow(v, links, e.source, e.target);
    i :| IsFirstRow(v, links, i, e.source, e.target) && links[i] == rows[0];
    forall j: nat | Survives(v, links, j, e.source, e.target)
      ensures links[j] in rows
    {
      JoinsIsPair(links[j], e.source, e.target);
      RowsExact(v, links, EdgePair(e), links[j]);
    }
    if e.score != links[i].score {
      var l :| l in rows && Explains(l, e.score);
      RowsExact(v, links, EdgePair(e), l);
      var j :| 0 <= j < |links| && links[j] == l;
      JoinsIsPair(l, e.source, e.target);
      assert Survives(v, links, j, e.source, e.target);
    }
  }
}
