/** What the scores of a search stand for: the weighted signals of a page, the best edges of a hit, and
    the order they give the answer. */
module SearchScores {
  import opened Strings
  import opened GraphView
  import opened EdgeCollapse
  import opened Search

  // ---------------------------------------------------------------- which pages are hits of their own

  /** What the query asks of a row: published with a live version, allowed, and within every filter set. */
  predicate MayBeShown(f: Filters, p: Page) {
    && p.published && p.hasVersion
    && (f.allowed.None? || p.id in f.allowed.value)
    && (f.org.None? || p.org.None? || p.org.value == f.org.value)
    && (f.domain.None? || (p.domain.Some? && p.domain.value == f.domain.value))
    && (f.spaces == {} || (p.space.Some? && p.space.value in f.spaces))
    && forall x | x in f.tags :: x in p.tags
  }

  /** Some query term is found, or a chunk is similar enough. */
  predicate IsRelevant(s: Settings, p: Page) {
    !(p.keyword == 0.0 && p.similarity < s.minSimilarity)
  }

  predicate IsOwnHit(f: Filters, s: Settings, pages: seq<Page>, p: Page) {
    p in pages && MayBeShown(f, p) && IsRelevant(s, p)
  }

  predicate IsDirectly(x: Scored, p: Page) {
    x.how == Direct && x.page == p
  }

  lemma HitIff(f: Filters, s: Settings, p: Page)
    ensures IsHit(f, s, p) <==> MayBeShown(f, p) && IsRelevant(s, p)
  {
  }

  function Weighted(s: Settings, p: Page): real {
    p.keyword * s.wKeyword + p.similarity * s.wVector + p.recency * s.wRecency
  }

  lemma Commutes(a: real, b: real)
    ensures a * b == b * a
  {
  }

  lemma BaseIsWeighted(s: Settings, p: Page)
    ensures BaseScore(s, p) == Weighted(s, p)
  {
    Commutes(s.wKeyword, p.keyword);
    Commutes(s.wVector, p.similarity);
    Commutes(s.wRecency, p.recency);
  }

  lemma {:induction false} DirectHitsScored(f: Filters, s: Settings, pages: seq<Page>, x: Scored)
    ensures x in DirectHits(f, s, pages) <==>
      x.how == Direct && IsOwnHit(f, s, pages, x.page) && x.score == Weighted(s, x.page)
  {
    if pages != [] {
      var front, p := pages[..|pages| - 1], pages[|pages| - 1];
      DirectHitsScored(f, s, front, x);
      HitIff(f, s, p);
      BaseIsWeighted(s, p);
      assert pages == front + [p];
      assert x == Scored(Weighted(s, p), p, Direct) <==> x.how == Direct && x.page == p && x.score == Weighted(s, p);
    }
  }

  // ---------------------------------------------------------------- importance

  /** The places of the link rows that leave a page. */
  function LeavingAt(links: seq<Link>, id: Id): set<nat> {
    set k: nat | k < |links| && links[k].source == id
  }

  lemma {:induction false} OutDegreeCounts(links: seq<Link>, id: Id)
    ensures OutDegree(links, id) == |LeavingAt(links, id)|
  {
    if links == [] {
      assert LeavingAt(links, id) == {};
    } else {
      var n := |links| - 1;
      var before := LeavingAt(links[..n], id);
      OutDegreeCounts(links[..n], id);
      assert LeavingAt(links, id) == before + if links[n].source == id then {n} else {};
      assert n !in before;
    }
  }

  lemma {:induction false} MaxDegreeExact(links: seq<Link>, hits: seq<Scored>)
    ensures forall x | x in hits :: OutDegree(links, x.page.id) <= MaxDegree(links, hits)
    ensures MaxDegree(links, hits) > 0 ==> exists x | x in hits :: OutDegree(links, x.page.id) == MaxDegree(links, hits)
  {
    if hits != [] {
      var front, last := hits[..|hits| - 1], hits[|hits| - 1];
      MaxDegreeExact(links, front);
      assert hits == front + [last];
      if MaxDegree(links, front) >= OutDegree(links, last.page.id) && MaxDegree(links, front) > 0 {
        var x :| x in front && OutDegree(links, x.page.id) == MaxDegree(links, front);
        assert x in hits;
      } else {
        assert last in hits;
      }
    }
  }

  /** `m` is the greatest number of links that leave a page found by its own signals. */
  ghost predicate IsGreatestDegree(f: Filters, s: Settings, pages: seq<Page>, links: seq<Link>, m: nat) {
    && (forall p | IsOwnHit(f, s, pages, p) :: |LeavingAt(links, p.id)| <= m)
    && (m > 0 ==> exists p :: IsOwnHit(f, s, pages, p) && |LeavingAt(links, p.id)| == m)
  }

  lemma GreatestDegree(f: Filters, s: Settings, pages: seq<Page>, links: seq<Link>)
    ensures IsGreatestDegree(f, s, pages, links, MaxDegree(links, DirectHits(f, s, pages)))
  {
    var hits := DirectHits(f, s, pages);
    var m := MaxDegree(links, hits);
    MaxDegreeExact(links, hits);
    forall p | IsOwnHit(f, s, pages, p)
      ensures |LeavingAt(links, p.id)| <= m
    {
      var x := Scored(Weighted(s, p), p, Direct);
      DirectHitsScored(f, s, pages, x);
      OutDegreeCounts(links, p.id);
      assert OutDegree(links, x.page.id) <= m;
    }
    if m > 0 {
      var x :| x in hits && OutDegree(links, x.page.id) == m;
      DirectHitsScored(f, s, pages, x);
      OutDegreeCounts(links, x.page.id);
      assert IsOwnHit(f, s, pages, x.page);
    }
  }

  /** The share of the importance weight a page gets. */
  function Importance(s: Settings, links: seq<Link>, m: nat, p: Page): real {
    if m == 0 then 0.0 else s.wImportance * (|LeavingAt(links, p.id)| as real / m as real)
  }

  lemma BoostedScore(s: Settings, links: seq<Link>, hits: seq<Scored>, k: nat)
    requires k < |hits|
    ensures WithImportance(s, links, hits)[k] ==
      hits[k].(score := hits[k].score + Importance(s, links, MaxDegree(links, hits), hits[k].page))
  {
    var m := MaxDegree(links, hits);
    OutDegreeCounts(links, hits[k].page.id);
    if m > 0 && s.wImportance == 0.0 {
      ZeroTimes(|LeavingAt(links, hits[k].page.id)| as real / m as real);
    }
  }

  lemma ZeroTimes(x: real)
    ensures 0.0 * x == 0.0
  {
  }

  /** The hits a query finds by their own signals are the pages that may be shown and are relevant, each
      with its weighted signals and its share of the importance weight as its score. */
  lemma DirectExact(f: Filters, s: Settings, pages: seq<Page>, links: seq<Link>, x: Scored)
    requires DistinctPages(pages) && x.how == Direct
    ensures exists m: nat :: (
      && IsGreatestDegree(f, s, pages, links, m)
      && (x in Candidates(f, s, pages, links) <==>
           IsOwnHit(f, s, pages, x.page) && x.score == Weighted(s, x.page) + Importance(s, links, m, x.page)))
  {
    var hits := DirectHits(f, s, pages);
    var m := MaxDegree(links, hits);
    GreatestDegree(f, s, pages, links);
    DirectIsRanked(f, s, pages, links, x);
    SortMembers(WithImportance(s, links, hits), x);
    if x in WithImportance(s, links, hits) {
      var k :| 0 <= k < |hits| && WithImportance(s, links, hits)[k] == x;
      BoostedScore(s, links, hits, k);
      DirectHitsScored(f, s, pages, hits[k]);
    }
    if IsOwnHit(f, s, pages, x.page) && x.score == Weighted(s, x.page) + Importance(s, links, m, x.page) {
      var base := Scored(Weighted(s, x.page), x.page, Direct);
      DirectHitsScored(f, s, pages, base);
      var k :| 0 <= k < |hits| && hits[k] == base;
      BoostedScore(s, links, hits, k);
      assert WithImportance(s, links, hits)[k] == x;
    }
  }

  lemma DirectIsRanked(f: Filters, s: Settings, pages: seq<Page>, links: seq<Link>, x: Scored)
    requires DistinctPages(pages) && x.how == Direct
    ensures x in Candidates(f, s, pages, links) <==> x in Ranked(f, s, pages, links)
  {
    var ranked := Ranked(f, s, pages, links);
    var extra := Expansion(f, s, pages, links, ranked);
    ChildrenSound(f, s, pages, Walk(f, s, pages, links).found);
    assert forall k | 0 <= k < |extra| :: extra[k].how.Via?;
    assert s.expand && ranked != [] ==> Candidates(f, s, pages, links) == ranked + extra;
  }

  // ---------------------------------------------------------------- what the order means

  /** Page `p` is not worse than `q` in any signal and better in one that counts. */
  predicate Dominates(s: Settings, p: Page, q: Page) {
    && p.keyword >= q.keyword && p.similarity >= q.similarity && p.recency >= q.recency
    && ((p.keyword > q.keyword && s.wKeyword > 0.0) || (p.similarity > q.similarity && s.wVector > 0.0)
        || (p.recency > q.recency && s.wRecency > 0.0))
  }

  lemma TermGrows(a: real, b: real, w: real)
    requires a >= b && w >= 0.0
    ensures a * w >= b * w
    ensures a > b && w > 0.0 ==> a * w > b * w
  {
    var d := a - b;
    assert a * w == b * w + d * w;
    if d > 0.0 && w > 0.0 {
      assert d * w > 0.0;
    } else {
      assert d * w == 0.0;
    }
  }

  lemma DominantScores(s: Settings, p: Page, q: Page)
    requires Dominates(s, p, q) && s.wKeyword >= 0.0 && s.wVector >= 0.0 && s.wRecency >= 0.0
    ensures Weighted(s, p) > Weighted(s, q)
  {
    TermGrows(p.keyword, q.keyword, s.wKeyword);
    TermGrows(p.similarity, q.similarity, s.wVector);
    TermGrows(p.recency, q.recency, s.wRecency);
  }

  lemma HigherStandsFirst(sorted: seq<Scored>, limit: nat, x: Scored, j: nat)
    requires SortedDesc(sorted) && x in sorted && j < |sorted| && j < limit && x.score > sorted[j].score
    ensures exists i | 0 <= i < j :: Take(sorted, limit)[i] == x
  {
    var i :| 0 <= i < |sorted| && sorted[i] == x;
    assert i < j && Take(sorted, limit)[i] == x;
  }

  lemma BetterScoreFirst(all: seq<Scored>, limit: nat, x: Scored, j: nat)
    requires x in all && j < |Take(Sort(all), limit)| && x.score > Take(Sort(all), limit)[j].score
    ensures exists i | 0 <= i < j :: Take(Sort(all), limit)[i] == x
  {
    SortSorted(all);
    SortMembers(all, x);
    HigherStandsFirst(Sort(all), limit, x, j);
  }

  /** Without importance in play, of two pages found by their own signals a page that dominates another
      stands before it in the answer, if that one is in it at all. */
  lemma DominantStandsFirst(f: Filters, s: Settings, pages: seq<Page>, links: seq<Link>, limit: nat, p: Page, q: Page,
                            j: nat)
    requires DistinctPages(pages) && s.wImportance == 0.0 && s.wKeyword >= 0.0 && s.wVector >= 0.0 && s.wRecency >= 0.0
    requires IsOwnHit(f, s, pages, p) && Dominates(s, p, q)
    requires j < |Take(Sort(Candidates(f, s, pages, links)), limit)|
    requires IsDirectly(Take(Sort(Candidates(f, s, pages, links)), limit)[j], q)
    ensures exists i | 0 <= i < j :: IsDirectly(Take(Sort(Candidates(f, s, pages, links)), limit)[i], p)
  {
    var all := Candidates(f, s, pages, links);
    var hits := Take(Sort(all), limit);
    var x := Scored(Weighted(s, p), p, Direct);
    SortMembers(all, hits[j]);
    OwnScore(f, s, pages, links, x);
    OwnScore(f, s, pages, links, hits[j]);
    DominantScores(s, p, q);
    BetterScoreFirst(all, limit, x, j);
  }

  lemma OwnScore(f: Filters, s: Settings, pages: seq<Page>, links: seq<Link>, x: Scored)
    requires DistinctPages(pages) && s.wImportance == 0.0 && x.how == Direct
    ensures x in Candidates(f, s, pages, links) <==>
      IsOwnHit(f, s, pages, x.page) && x.score == Weighted(s, x.page)
  {
    DirectExact(f, s, pages, links, x);
    var m: nat :| IsGreatestDegree(f, s, pages, links, m)
      && (x in Candidates(f, s, pages, links) <==>
           IsOwnHit(f, s, pages, x.page) && x.score == Weighted(s, x.page) + Importance(s, links, m, x.page));
    if m > 0 {
      ZeroTimes(|LeavingAt(links, x.page.id)| as real / m as real);
    }
  }

  // ---------------------------------------------------------------- which edge a neighbour comes by

  predicate BestFirst(s: seq<Link>) {
    forall i, j | 0 <= i < j < |s| :: s[i].score >= s[j].score
  }

  lemma {:induction false} InsertKeepsBest(s: seq<Link>, l: Link)
    requires BestFirst(s)
    ensures BestFirst(InsertLink(s, l)) && forall x :: x in InsertLink(s, l) <==> x in s || x == l
  {
    if s != [] && s[|s| - 1].score < l.score {
      var front, last := s[..|s| - 1], s[|s| - 1];
      InsertKeepsBest(front, l);
      assert s == front + [last];
      assert forall x | x in front :: x.score >= last.score;
      assert forall i | 0 <= i < |InsertLink(front, l)| :: InsertLink(front, l)[i] in InsertLink(front, l);
    } else {
      assert forall i | 0 <= i < |s| :: s[i].score >= l.score;
    }
  }

  /** The edges of a page, the best first. */
  lemma {:induction false} EdgesBestFirst(links: seq<Link>, id: Id)
    ensures BestFirst(EdgesFrom(links, id))
  {
    if links != [] {
      EdgesBestFirst(links[..|links| - 1], id);
      InsertKeepsBest(EdgesFrom(links[..|links| - 1], id), links[|links| - 1]);
    }
  }

  /** The edges a hit is expanded over. */
  function BestEdges(s: Settings, links: seq<Link>, x: Scored): seq<Link> {
    Take(EdgesFrom(links, x.page.id), s.perHit)
  }

  /** Edge `k` of hit `i` leads to that page. */
  predicate LeadsAt(s: Settings, links: seq<Link>, hits: seq<Scored>, i: nat, k: nat, id: Id) {
    i < |hits| && k < |BestEdges(s, links, hits[i])| && BestEdges(s, links, hits[i])[k].target == id
  }

  ghost predicate NoneBefore(s: Settings, links: seq<Link>, hits: seq<Scored>, i: nat, k: nat, id: Id) {
    forall a: nat, b: nat | LeadsAt(s, links, hits, a, b, id) :: i < a || (i == a && k <= b)
  }

  /** The candidate comes by the first of the hits' best edges that lead to its page. */
  ghost predicate FoundFirst(s: Settings, links: seq<Link>, hits: seq<Scored>, c: Candidate) {
    exists i: nat, k: nat :: LeadsAt(s, links, hits, i, k, c.link.target)
      && NoneBefore(s, links, hits, i, k, c.link.target)
      && c == Candidate(hits[i], BestEdges(s, links, hits[i])[k])
  }

  /** A new candidate: the first of these edges to a page not met before. */
  predicate IsNew(r: Reached, parent: Scored, edges: seq<Link>, c: Candidate, k: nat) {
    k < |edges| && c == Candidate(parent, edges[k]) && c.link.target !in r.seen
    && forall b | 0 <= b < k :: edges[b].target != c.link.target
  }

  predicate LeadTo(edges: seq<Link>, id: Id) {
    exists k | 0 <= k < |edges| :: edges[k].target == id
  }

  lemma LeadToMore(edges: seq<Link>, l: Link, id: Id)
    ensures LeadTo(edges + [l], id) <==> LeadTo(edges, id) || l.target == id
  {
    var all := edges + [l];
    assert all[|edges|] == l && forall k | 0 <= k < |edges| :: all[k] == edges[k];
  }

  lemma {:induction false} EdgesFind(r: Reached, parent: Scored, edges: seq<Link>)
    ensures var out := FollowEdges(r, parent, edges);
      && (forall id :: id in out.seen <==> id in r.seen || LeadTo(edges, id))
      && forall c | c in out.found :: c in r.found || exists k: nat :: IsNew(r, parent, edges, c, k)
  {
    if edges != [] {
      var front, n := edges[..|edges| - 1], |edges| - 1;
      assert edges == front + [edges[n]];
      EdgesFind(r, parent, front);
      var mid, out := FollowEdges(r, parent, front), FollowEdges(r, parent, edges);
      forall id
        ensures id in out.seen <==> id in r.seen || LeadTo(edges, id)
      {
        LeadToMore(front, edges[n], id);
      }
      forall c | c in out.found && c !in r.found
        ensures exists k: nat :: IsNew(r, parent, edges, c, k)
      {
        NewMore(r, parent, edges, c);
      }
    }
  }

  lemma NewMore(r: Reached, parent: Scored, edges: seq<Link>, c: Candidate)
    requires edges != [] && c in FollowEdges(r, parent, edges).found && c !in r.found
    requires var front := edges[..|edges| - 1];
      && (forall id :: id in FollowEdges(r, parent, front).seen <==> id in r.seen || LeadTo(front, id))
      && (c in FollowEdges(r, parent, front).found ==> exists k: nat :: IsNew(r, parent, front, c, k))
    ensures exists k: nat :: IsNew(r, parent, edges, c, k)
  {
    var front, n := edges[..|edges| - 1], |edges| - 1;
    if c in FollowEdges(r, parent, front).found {
      var k: nat :| IsNew(r, parent, front, c, k);
      assert forall b | 0 <= b < k :: edges[b] == front[b];
      assert IsNew(r, parent, edges, c, k);
    } else {
      assert c == Candidate(parent, edges[n]) && !LeadTo(front, c.link.target);
      forall b | 0 <= b < n
        ensures edges[b].target != c.link.target
      {
        assert edges[b] == front[b];
      }
      assert IsNew(r, parent, edges, c, n);
    }
  }

  /** The walk finds every page by the first edge that leads to it. */
  lemma {:induction false} WalkFindsFirst(s: Settings, links: seq<Link>, seen0: set<Id>, hits: seq<Scored>)
    ensures var r := FollowAll(s, links, Reached(seen0, []), hits);
      && (forall id :: id in r.seen <==> id in seen0 || exists i: nat, k: nat :: LeadsAt(s, links, hits, i, k, id))
      && forall c | c in r.found :: FoundFirst(s, links, hits, c)
  {
    if hits != [] {
      var front, n := hits[..|hits| - 1], |hits| - 1;
      var mid, edges := FollowAll(s, links, Reached(seen0, []), front), BestEdges(s, links, hits[n]);
      var r := FollowAll(s, links, Reached(seen0, []), hits);
      WalkFindsFirst(s, links, seen0, front);
      EdgesFind(mid, hits[n], edges);
      assert hits == front + [hits[n]];
      forall id
        ensures id in r.seen <==> id in seen0 || exists i: nat, k: nat :: LeadsAt(s, links, hits, i, k, id)
      {
        LeadsMore(s, links, front, hits[n], id);
      }
      forall c | c in r.found
        ensures FoundFirst(s, links, hits, c)
      {
        if c in mid.found {
          FoundEarlier(s, links, front, hits[n], c);
        } else {
          var k: nat :| IsNew(mid, hits[n], edges, c, k);
          FoundLast(s, links, front, hits[n], edges, c, k);
        }
      }
    }
  }

  lemma LeadsMore(s: Settings, links: seq<Link>, front: seq<Scored>, last: Scored, id: Id)
    ensures (exists i: nat, k: nat :: LeadsAt(s, links, front + [last], i, k, id)) <==>
      (exists i: nat, k: nat :: LeadsAt(s, links, front, i, k, id)) || LeadTo(BestEdges(s, links, last), id)
  {
    var hits, edges := front + [last], BestEdges(s, links, last);
    if LeadTo(edges, id) {
      var k :| 0 <= k < |edges| && edges[k].target == id;
      assert LeadsAt(s, links, hits, |front|, k, id);
    }
    if i: nat, k: nat :| LeadsAt(s, links, front, i, k, id) {
      assert LeadsAt(s, links, hits, i, k, id);
    }
    if i: nat, k: nat :| LeadsAt(s, links, hits, i, k, id) {
      assert i < |front| ==> LeadsAt(s, links, front, i, k, id);
      assert i == |front| ==> edges[k].target == id;
    }
  }

  lemma FoundEarlier(s: Settings, links: seq<Link>, front: seq<Scored>, last: Scored, c: Candidate)
    requires FoundFirst(s, links, front, c)
    ensures FoundFirst(s, links, front + [last], c)
  {
    var hits := front + [last];
    var i: nat, k: nat :| LeadsAt(s, links, front, i, k, c.link.target)
      && NoneBefore(s, links, front, i, k, c.link.target)
      && c == Candidate(front[i], BestEdges(s, links, front[i])[k]);
    forall a: nat, b: nat | LeadsAt(s, links, hits, a, b, c.link.target)
      ensures i < a || (i == a && k <= b)
    {
      assert a < |front| ==> LeadsAt(s, links, front, a, b, c.link.target);
    }
    assert LeadsAt(s, links, hits, i, k, c.link.target);
  }

  lemma FoundLast(s: Settings, links: seq<Link>, front: seq<Scored>, last: Scored, edges: seq<Link>, c: Candidate,
                  k: nat)
    requires edges == BestEdges(s, links, last) && k < |edges| && c == Candidate(last, edges[k])
    requires forall b | 0 <= b < k :: edges[b].target != c.link.target
    requires forall i: nat, b: nat :: !LeadsAt(s, links, front, i, b, c.link.target)
    ensures FoundFirst(s, links, front + [last], c)
  {
    var hits, n := front + [last], |front|;
    forall a: nat, b: nat | LeadsAt(s, links, hits, a, b, c.link.target)
      ensures n < a || (n == a && k <= b)
    {
      assert !LeadsAt(s, links, front, a, b, c.link.target);
    }
    assert LeadsAt(s, links, hits, n, k, c.link.target);
  }

  /** An expanded hit is no hit of its own; it comes from the first of the top hits with one of its best
      edges to the page, by the first of those edges. */
  lemma ExpandedFromFirst(f: Filters, s: Settings, pages: seq<Page>, links: seq<Link>, x: Scored)
    returns (i: nat, k: nat)
    requires DistinctPages(pages) && x in Candidates(f, s, pages, links) && x.how.Via?
    ensures var top := Take(Ranked(f, s, pages, links), s.topHits);
      && LeadsAt(s, links, top, i, k, x.page.id) && NoneBefore(s, links, top, i, k, x.page.id)
      && var edge := BestEdges(s, links, top[i])[k];
      x.how == Via(top[i].page.id, top[i].score, edge.score) && x.score == edge.score * top[i].score * s.decay
    ensures x.page.id !in IdsOf(Ranked(f, s, pages, links))
  {
    var top, found := Take(Ranked(f, s, pages, links), s.topHits), Walk(f, s, pages, links).found;
    ExpandedIsChild(f, s, pages, links, x);
    var c := ChildCandidate(s, found, x);
    CandidateFound(f, s, pages, links, c);
    i, k :| LeadsAt(s, links, top, i, k, c.link.target) && NoneBefore(s, links, top, i, k, c.link.target)
      && c == Candidate(top[i], BestEdges(s, links, top[i])[k]);
  }

  lemma ChildCandidate(s: Settings, found: seq<Candidate>, x: Scored) returns (c: Candidate)
    requires IsChild(s, found, x)
    ensures c in found && x.page.id == c.link.target && x.score == c.link.score * c.parent.score * s.decay
    ensures x.how == Via(c.parent.page.id, c.parent.score, c.link.score)
  {
    var n :| 0 <= n < |found| && x.page.id == found[n].link.target && x.score == ChildScore(s, found[n])
      && x.how == Via(found[n].parent.page.id, found[n].parent.score, found[n].link.score);
    c := found[n];
  }

  lemma CandidateFound(f: Filters, s: Settings, pages: seq<Page>, links: seq<Link>, c: Candidate)
    requires c in Walk(f, s, pages, links).found
    ensures FoundFirst(s, links, Take(Ranked(f, s, pages, links), s.topHits), c)
    ensures c.link.target !in IdsOf(Ranked(f, s, pages, links))
  {
    var ranked, found := Ranked(f, s, pages, links), Walk(f, s, pages, links).found;
    WalkFromTop(f, s, pages, links);
    WalkFindsFirst(s, links, IdsOf(ranked), Take(ranked, s.topHits));
    var n :| 0 <= n < |found| && found[n] == c;
    assert IsCandidate(links, Take(ranked, s.topHits), IdsOf(ranked), found[n]);
  }
}
