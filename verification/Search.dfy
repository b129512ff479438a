/** Hybrid search: score the visible pages, sort, add one-hop neighbours of the top hits at a
    discount, sort again and cut. */
module Search {
  import opened Strings
  import opened GraphView
  import opened EdgeCollapse

  datatype Settings = Settings(wKeyword: real, wVector: real, wRecency: real, wImportance: real, minSimilarity: real,
                               expand: bool, topHits: nat, perHit: nat, decay: real)

  /** A page with the signals one query has for it: the fraction of query terms found, the best
      chunk similarity and the age discount. */
  datatype Page = Page(id: Id, published: bool, hasVersion: bool, org: Option<Id>, space: Option<Id>,
                       domain: Option<string>, tags: set<string>, keyword: real, similarity: real, recency: real)

  datatype Filters = Filters(allowed: Option<set<Id>>, org: Option<Id>, domain: Option<string>, spaces: set<Id>,
                             tags: set<string>) {
    /** The page may be shown to this caller under these filters. */
    predicate Shows(p: Page) {
      && p.published && p.hasVersion
      && (allowed.Some? ==> p.id in allowed.value)
      && (org.Some? ==> p.org.None? || p.org == org)
      && (domain.Some? ==> p.domain == domain)
      && (spaces != {} ==> p.space.Some? && p.space.value in spaces)
      && tags <= p.tags
    }
  }

  /** How a hit was found: by its own signals, or over an edge from a better hit. */
  datatype How = Direct | Via(parent: Id, parentScore: real, edge: real)

  datatype Scored = Scored(score: real, page: Page, how: How)

  // ---------------------------------------------------------------- sorting

  predicate SortedDesc(s: seq<Scored>) {
    forall i, j | 0 <= i < j < |s| :: s[i].score >= s[j].score
  }

  /** Insert behind everything scoring at least as much. */
  function Insert(s: seq<Scored>, x: Scored): seq<Scored> {
    if s == [] || s[|s| - 1].score >= x.score then s + [x] else Insert(s[..|s| - 1], x) + [s[|s| - 1]]
  }

  /** `sorted(s, key=score, reverse=True)`: descending, equal scores in their old order. */
  function Sort(s: seq<Scored>): seq<Scored> {
    if s == [] then [] else Insert(Sort(s[..|s| - 1]), s[|s| - 1])
  }

  lemma {:induction false} InsertPermutes(s: seq<Scored>, x: Scored)
    ensures multiset(Insert(s, x)) == multiset(s) + multiset{x} && |Insert(s, x)| == |s| + 1
  {
    if s != [] && s[|s| - 1].score < x.score {
      InsertPermutes(s[..|s| - 1], x);
      assert s == s[..|s| - 1] + [s[|s| - 1]];
    }
  }

  lemma {:induction false} InsertSorted(s: seq<Scored>, x: Scored)
    requires SortedDesc(s)
    ensures SortedDesc(Insert(s, x))
  {
    if s != [] && s[|s| - 1].score < x.score {
      InsertSorted(s[..|s| - 1], x);
      AllAtLeast(s[..|s| - 1], x, s[|s| - 1].score);
    }
  }

  lemma {:induction false} AllAtLeast(s: seq<Scored>, x: Scored, low: real)
    requires x.score >= low && forall k | 0 <= k < |s| :: s[k].score >= low
    ensures forall k | 0 <= k < |Insert(s, x)| :: Insert(s, x)[k].score >= low
  {
    if s != [] && s[|s| - 1].score < x.score {
      AllAtLeast(s[..|s| - 1], x, low);
    }
  }

  lemma {:induction false} SortSorted(s: seq<Scored>)
    ensures SortedDesc(Sort(s)) && multiset(Sort(s)) == multiset(s) && |Sort(s)| == |s|
  {
    if s != [] {
      var front := s[..|s| - 1];
      SortSorted(front);
      InsertSorted(Sort(front), s[|s| - 1]);
      InsertPermutes(Sort(front), s[|s| - 1]);
      assert s == front + [s[|s| - 1]];
    }
  }

  /** `x` stands before `y`. */
  ghost predicate Precedes(s: seq<Scored>, x: Scored, y: Scored) {
    exists i, j :: 0 <= i < j < |s| && s[i] == x && s[j] == y
  }

  lemma {:induction false} InsertPrecedes(s: seq<Scored>, x: Scored, a: Scored)
    requires SortedDesc(s) && a in s && a.score >= x.score
    ensures Precedes(Insert(s, x), a, x)
  {
    var front, last := s[..|s| - 1], s[|s| - 1];
    if last.score >= x.score {
      var i :| 0 <= i < |s| && s[i] == a;
      assert (s + [x])[i] == a && (s + [x])[|s|] == x;
    } else {
      assert s == front + [last];
      InsertPrecedes(front, x, a);
      PrecedesExtends(Insert(front, x), [last], a, x);
    }
  }

  lemma PrecedesExtends(s: seq<Scored>, t: seq<Scored>, a: Scored, b: Scored)
    requires Precedes(s, a, b)
    ensures Precedes(s + t, a, b)
  {
    var i, j :| 0 <= i < j < |s| && s[i] == a && s[j] == b;
    assert (s + t)[i] == a && (s + t)[j] == b;
  }

  lemma {:induction false} InsertKeepsOrder(s: seq<Scored>, x: Scored, a: Scored, b: Scored)
    requires Precedes(s, a, b)
    ensures Precedes(Insert(s, x), a, b)
  {
    if s[|s| - 1].score >= x.score {
      PrecedesExtends(s, [x], a, b);
    } else {
      var front, last := s[..|s| - 1], s[|s| - 1];
      var i, j :| 0 <= i < j < |s| && s[i] == a && s[j] == b;
      if j < |front| {
        assert front[i] == a && front[j] == b;
        InsertKeepsOrder(front, x, a, b);
        PrecedesExtends(Insert(front, x), [last], a, b);
      } else {
        InsertKeepsMember(front, x, i);
        var k :| 0 <= k < |Insert(front, x)| && Insert(front, x)[k] == front[i];
        assert (Insert(front, x) + [last])[k] == a && (Insert(front, x) + [last])[|Insert(front, x)|] == b;
      }
    }
  }

  lemma {:induction false} InsertKeepsMember(s: seq<Scored>, x: Scored, i: nat)
    requires i < |s|
    ensures s[i] in Insert(s, x)
  {
    if s[|s| - 1].score >= x.score {
      assert (s + [x])[i] == s[i];
    } else if i < |s| - 1 {
      InsertKeepsMember(s[..|s| - 1], x, i);
    }
  }

  /** Sorting is stable: a better or equal entry listed first stays in front. */
  lemma {:induction false} SortStable(s: seq<Scored>, i: nat, j: nat)
    requires i < j < |s| && s[i].score >= s[j].score
    ensures Precedes(Sort(s), s[i], s[j])
  {
    var front, last := s[..|s| - 1], s[|s| - 1];
    if j < |front| {
      SortStable(front, i, j);
      InsertKeepsOrder(Sort(front), last, s[i], s[j]);
    } else {
      SortSorted(front);
      assert front[i] in multiset(front);
      assert front[i] in multiset(Sort(front));
      InsertPrecedes(Sort(front), last, s[i]);
    }
  }

  // ---------------------------------------------------------------- direct hits

  function BaseScore(s: Settings, p: Page): real {
    s.wKeyword * p.keyword + s.wVector * p.similarity + s.wRecency * p.recency
  }

  /** The relevance gate. */
  predicate Relevant(s: Settings, p: Page) {
    p.keyword != 0.0 || p.similarity >= s.minSimilarity
  }

  predicate IsHit(f: Filters, s: Settings, p: Page) {
    f.Shows(p) && Relevant(s, p)
  }

  function DirectHits(f: Filters, s: Settings, pages: seq<Page>): seq<Scored> {
    if pages == [] then []
    else
      var before, p := DirectHits(f, s, pages[..|pages| - 1]), pages[|pages| - 1];
      if IsHit(f, s, p) then before + [Scored(BaseScore(s, p), p, Direct)] else before
  }

  function OutDegree(links: seq<Link>, id: Id): nat {
    if links == [] then 0 else OutDegree(links[..|links| - 1], id) + if links[|links| - 1].source == id then 1 else 0
  }

  function MaxDegree(links: seq<Link>, hits: seq<Scored>): nat {
    if hits == [] then 0
    else
      var m, d := MaxDegree(links, hits[..|hits| - 1]), OutDegree(links, hits[|hits| - 1].page.id);
      if m < d then d else m
  }

  function Boosted(s: Settings, links: seq<Link>, max: nat, x: Scored): Scored
    requires max > 0
  {
    x.(score := x.score + s.wImportance * (OutDegree(links, x.page.id) as real / max as real))
  }

  /** Degree centrality, when it carries weight. */
  function WithImportance(s: Settings, links: seq<Link>, hits: seq<Scored>): (r: seq<Scored>)
    ensures |r| == |hits| && forall k | 0 <= k < |r| :: r[k].page == hits[k].page && r[k].how == hits[k].how
  {
    var max := MaxDegree(links, hits);
    if s.wImportance == 0.0 || max == 0 then hits
    else seq(|hits|, k requires 0 <= k < |hits| => Boosted(s, links, max, hits[k]))
  }

  // ---------------------------------------------------------------- one-hop expansion

  /** Insert a link row behind everything scoring at least as much. */
  function InsertLink(s: seq<Link>, l: Link): seq<Link> {
    if s == [] || s[|s| - 1].score >= l.score then s + [l] else InsertLink(s[..|s| - 1], l) + [s[|s| - 1]]
  }

  /** The edges leaving a page, best first. */
  function EdgesFrom(links: seq<Link>, id: Id): seq<Link> {
    if links == [] then []
    else
      var before := EdgesFrom(links[..|links| - 1], id);
      if links[|links| - 1].source == id then InsertLink(before, links[|links| - 1]) else before
  }

  function Take<T>(s: seq<T>, n: nat): seq<T> {
    if n < |s| then s[..n] else s
  }

  datatype Candidate = Candidate(parent: Scored, link: Link)

  /** Targets met so far, and the candidates they gave. */
  datatype Reached = Reached(seen: set<Id>, found: seq<Candidate>) {
    function Add(parent: Scored, l: Link): Reached {
      if l.target in seen then this else Reached(seen + {l.target}, found + [Candidate(parent, l)])
    }
  }

  function FollowEdges(r: Reached, parent: Scored, edges: seq<Link>): Reached {
    if edges == [] then r else FollowEdges(r, parent, edges[..|edges| - 1]).Add(parent, edges[|edges| - 1])
  }

  function FollowAll(s: Settings, links: seq<Link>, r: Reached, parents: seq<Scored>): Reached {
    if parents == [] then r
    else
      var parent := parents[|parents| - 1];
      FollowEdges(FollowAll(s, links, r, parents[..|parents| - 1]),
                  parent, Take(EdgesFrom(links, parent.page.id), s.perHit))
  }

  function IdsOf(hits: seq<Scored>): set<Id> {
    set k | 0 <= k < |hits| :: hits[k].page.id
  }

  function FindPage(pages: seq<Page>, id: Id): Option<Page> {
    if pages == [] then None
    else if pages[|pages| - 1].id == id then Some(pages[|pages| - 1])
    else FindPage(pages[..|pages| - 1], id)
  }

  function ChildScore(s: Settings, c: Candidate): real {
    c.link.score * c.parent.score * s.decay
  }

  /** The hits the candidates turn into: those whose target page may be shown. */
  function Children(f: Filters, s: Settings, pages: seq<Page>, found: seq<Candidate>): seq<Scored> {
    if found == [] then []
    else
      var before, c := Children(f, s, pages, found[..|found| - 1]), found[|found| - 1];
      var page := FindPage(pages, c.link.target);
      if page.Some? && f.Shows(page.value)
      then before + [Scored(ChildScore(s, c), page.value, Via(c.parent.page.id, c.parent.score, c.link.score))]
      else before
  }

  function Expansion(f: Filters, s: Settings, pages: seq<Page>, links: seq<Link>, ranked: seq<Scored>): seq<Scored> {
    Children(f, s, pages, FollowAll(s, links, Reached(IdsOf(ranked), []), Take(ranked, s.topHits)).found)
  }

  method Expand(f: Filters, s: Settings, pages: seq<Page>, links: seq<Link>, ranked: seq<Scored>)
    returns (extra: seq<Scored>)
    ensures extra == Expansion(f, s, pages, links, ranked)
  {
    var r := Reached(IdsOf(ranked), []);
    var top := Take(ranked, s.topHits);
    for i := 0 to |top|
      invariant r == FollowAll(s, links, Reached(IdsOf(ranked), []), top[..i])
    {
      var edges := Take(EdgesFrom(links, top[i].page.id), s.perHit);
      ghost var r0 := r;
      for j := 0 to |edges|
        invariant r == FollowEdges(r0, top[i], edges[..j])
      {
        assert edges[..j + 1][..j] == edges[..j];
        if edges[j].target !in r.seen {
          r := Reached(r.seen + {edges[j].target}, r.found + [Candidate(top[i], edges[j])]);
        }
      }
      assert edges[..|edges|] == edges;
      assert top[..i + 1][..i] == top[..i];
    }
    assert top[..|top|] == top;
    extra := [];
    for k := 0 to |r.found|
      invariant extra == Children(f, s, pages, r.found[..k])
    {
      assert r.found[..k + 1][..k] == r.found[..k];
      var c := r.found[k];
      var page := FindPage(pages, c.link.target);
      if page.Some? && f.Shows(page.value) {
        extra := extra + [Scored(ChildScore(s, c), page.value, Via(c.parent.page.id, c.parent.score, c.link.score))];
      }
    }
    assert r.found[..|r.found|] == r.found;
  }

  // ---------------------------------------------------------------- the query

  function Candidates(f: Filters, s: Settings, pages: seq<Page>, links: seq<Link>): seq<Scored> {
    var ranked := Sort(WithImportance(s, links, DirectHits(f, s, pages)));
    if s.expand && ranked != [] then ranked + Expansion(f, s, pages, links, ranked) else ranked
  }

  method Query(f: Filters, s: Settings, pages: seq<Page>, links: seq<Link>, limit: nat) returns (hits: seq<Scored>)
    ensures hits == Take(Sort(Candidates(f, s, pages, links)), limit)
  {
    var scored := [];
    for i := 0 to |pages|
      invariant scored == DirectHits(f, s, pages[..i])
    {
      assert pages[..i + 1][..i] == pages[..i];
      if f.Shows(pages[i]) && Relevant(s, pages[i]) {
        scored := scored + [Scored(BaseScore(s, pages[i]), pages[i], Direct)];
      }
    }
    assert pages[..|pages|] == pages;
    if s.wImportance != 0.0 && scored != [] {
      scored := WithImportance(s, links, scored);
    }
    var ranked := Sort(scored);
    if s.expand && ranked != [] {
      var extra := Expand(f, s, pages, links, ranked);
      hits := Take(Sort(ranked + extra), limit);
    } else {
      SortedIsFixed(scored);
      hits := Take(ranked, limit);
    }
  }

  /** Sorting what is sorted changes nothing. */
  lemma {:induction false} SortFixed(s: seq<Scored>)
    requires SortedDesc(s)
    ensures Sort(s) == s
  {
    if s != [] {
      SortFixed(s[..|s| - 1]);
      InsertLast(s);
    }
  }

  lemma InsertLast(s: seq<Scored>)
    requires SortedDesc(s) && s != []
    ensures Insert(s[..|s| - 1], s[|s| - 1]) == s
  {
    var front, x := s[..|s| - 1], s[|s| - 1];
    assert front + [x] == s;
    assert front != [] ==> front[|front| - 1] == s[|s| - 2];
  }

  lemma SortedIsFixed(s: seq<Scored>)
    ensures Sort(Sort(s)) == Sort(s)
  {
    SortSorted(s);
    SortFixed(Sort(s));
  }

  // ---------------------------------------------------------------- what is found

  predicate DistinctPages(pages: seq<Page>) {
    forall i, j | 0 <= i < j < |pages| :: pages[i].id != pages[j].id
  }

  predicate DistinctHits(hits: seq<Scored>) {
    forall i, j | 0 <= i < j < |hits| :: hits[i].page.id != hits[j].page.id
  }

  /** Every hit is a page that may be shown. */
  predicate AllShown(f: Filters, pages: seq<Page>, hits: seq<Scored>) {
    forall k | 0 <= k < |hits| :: hits[k].page in pages && f.Shows(hits[k].page)
  }

  lemma IdsOfMore(hits: seq<Scored>, x: Scored)
    ensures IdsOf(hits + [x]) == IdsOf(hits) + {x.page.id}
  {
    var all := hits + [x];
    assert forall k | 0 <= k < |hits| :: all[k] == hits[k];
    assert all[|hits|] == x;
  }

  lemma {:induction false} DirectHitsComplete(f: Filters, s: Settings, pages: seq<Page>)
    ensures forall i | 0 <= i < |pages| && IsHit(f, s, pages[i]) :: pages[i].id in IdsOf(DirectHits(f, s, pages))
  {
    if pages != [] {
      var front, p := pages[..|pages| - 1], pages[|pages| - 1];
      DirectHitsComplete(f, s, front);
      if IsHit(f, s, p) {
        IdsOfMore(DirectHits(f, s, front), DirectHits(f, s, pages)[|DirectHits(f, s, front)|]);
      }
      forall i | 0 <= i < |front| && IsHit(f, s, pages[i])
        ensures pages[i].id in IdsOf(DirectHits(f, s, pages))
      {
        assert front[i] == pages[i];
      }
    }
  }

  lemma {:induction false} DirectHitsExact(f: Filters, s: Settings, pages: seq<Page>)
    requires DistinctPages(pages)
    ensures var hits := DirectHits(f, s, pages);
      && DistinctHits(hits)
      && AllShown(f, pages, hits)
      && (forall k | 0 <= k < |hits| :: hits[k].how == Direct && Relevant(s, hits[k].page))
      && (forall i | 0 <= i < |pages| && IsHit(f, s, pages[i]) :: pages[i].id in IdsOf(hits))
  {
    DirectHitsComplete(f, s, pages);
    if pages != [] {
      DirectHitsExact(f, s, pages[..|pages| - 1]);
    }
  }

  lemma {:induction false} InsertLinkMembers(s: seq<Link>, l: Link)
    ensures multiset(InsertLink(s, l)) == multiset(s) + multiset{l}
  {
    if s != [] && s[|s| - 1].score < l.score {
      InsertLinkMembers(s[..|s| - 1], l);
      assert s == s[..|s| - 1] + [s[|s| - 1]];
    }
  }

  /** The expansion follows stored edges only. */
  lemma {:induction false} EdgesFromStored(links: seq<Link>, id: Id)
    ensures forall l :: l in EdgesFrom(links, id) <==> l in links && l.source == id
  {
    if links != [] {
      var front, last := links[..|links| - 1], links[|links| - 1];
      EdgesFromStored(front, id);
      InsertLinkMembers(EdgesFrom(front, id), last);
      assert forall l :: l in links <==> l in front || l == last;
      forall l
        ensures l in InsertLink(EdgesFrom(front, id), last) <==> l in EdgesFrom(front, id) || l == last
      {
        assert l in InsertLink(EdgesFrom(front, id), last) <==> l in multiset(InsertLink(EdgesFrom(front, id), last));
        assert l in EdgesFrom(front, id) <==> l in multiset(EdgesFrom(front, id));
      }
    }
  }

  /** A candidate comes over a stored edge from one of the parents to an id not met before. */
  predicate IsCandidate(links: seq<Link>, parents: seq<Scored>, seen0: set<Id>, c: Candidate) {
    c.parent in parents && c.link in links && c.link.source == c.parent.page.id && c.link.target !in seen0
  }

  predicate DistinctTargets(found: seq<Candidate>) {
    forall i, j | 0 <= i < j < |found| :: found[i].link.target != found[j].link.target
  }

  predicate IsTarget(found: seq<Candidate>, id: Id) {
    exists k | 0 <= k < |found| :: found[k].link.target == id
  }

  ghost predicate WellReached(links: seq<Link>, parents: seq<Scored>, seen0: set<Id>, r: Reached) {
    && (forall k | 0 <= k < |r.found| :: IsCandidate(links, parents, seen0, r.found[k]))
    && DistinctTargets(r.found)
    && forall id :: id in r.seen <==> id in seen0 || IsTarget(r.found, id)
  }

  lemma AddWellReached(links: seq<Link>, parents: seq<Scored>, seen0: set<Id>, r: Reached, parent: Scored, l: Link)
    requires WellReached(links, parents, seen0, r) && parent in parents && l in links && l.source == parent.page.id
    ensures WellReached(links, parents, seen0, r.Add(parent, l)) && l.target in r.Add(parent, l).seen
  {
    var r' := r.Add(parent, l);
    if l.target !in r.seen {
      forall k | 0 <= k < |r.found|
        ensures r.found[k].link.target != l.target
      {
        assert IsTarget(r.found, r.found[k].link.target);
      }
      forall id
        ensures id in r'.seen <==> id in seen0 || IsTarget(r'.found, id)
      {
        if IsTarget(r.found, id) {
          var k :| 0 <= k < |r.found| && r.found[k].link.target == id;
          assert r'.found[k].link.target == id;
        }
        assert r'.found[|r.found|].link.target == l.target;
      }
    }
  }

  lemma {:induction false} FollowEdgesWell(links: seq<Link>, parents: seq<Scored>, seen0: set<Id>, r: Reached,
                                           parent: Scored, edges: seq<Link>)
    requires WellReached(links, parents, seen0, r) && parent in parents
    requires forall k | 0 <= k < |edges| :: edges[k] in links && edges[k].source == parent.page.id
    ensures WellReached(links, parents, seen0, FollowEdges(r, parent, edges))
        && r.seen <= FollowEdges(r, parent, edges).seen
    ensures forall k | 0 <= k < |edges| :: edges[k].target in FollowEdges(r, parent, edges).seen
  {
    if edges != [] {
      FollowEdgesWell(links, parents, seen0, r, parent, edges[..|edges| - 1]);
      AddWellReached(links, parents, seen0, FollowEdges(r, parent, edges[..|edges| - 1]), parent, edges[|edges| - 1]);
    }
  }

  /** Every one of a parent's best edges leads to an id the walk has met. */
  predicate Followed(s: Settings, links: seq<Link>, parent: Scored, seen: set<Id>) {
    forall k | 0 <= k < |Take(EdgesFrom(links, parent.page.id), s.perHit)| ::
      Take(EdgesFrom(links, parent.page.id), s.perHit)[k].target in seen
  }

  lemma {:induction false} FollowAllWell(s: Settings, links: seq<Link>, all: seq<Scored>, seen0: set<Id>,
                                         parents: seq<Scored>)
    requires forall k | 0 <= k < |parents| :: parents[k] in all
    ensures var r := FollowAll(s, links, Reached(seen0, []), parents);
      && WellReached(links, all, seen0, r)
      && forall k | 0 <= k < |parents| :: Followed(s, links, parents[k], r.seen)
  {
    if parents != [] {
      var front, parent := parents[..|parents| - 1], parents[|parents| - 1];
      FollowAllWell(s, links, all, seen0, front);
      var edges := Take(EdgesFrom(links, parent.page.id), s.perHit);
      EdgesFromStored(links, parent.page.id);
      forall k | 0 <= k < |edges|
        ensures edges[k] in links && edges[k].source == parent.page.id
      {
        assert edges[k] in EdgesFrom(links, parent.page.id);
      }
      var r0 := FollowAll(s, links, Reached(seen0, []), front);
      FollowEdgesWell(links, all, seen0, r0, parent, edges);
      forall k | 0 <= k < |parents|
        ensures Followed(s, links, parents[k], FollowEdges(r0, parent, edges).seen)
      {
        assert k < |front| ==> Followed(s, links, front[k], r0.seen);
      }
    }
  }

  lemma {:induction false} FindPageExact(pages: seq<Page>, id: Id)
    requires DistinctPages(pages)
    ensures FindPage(pages, id).Some? ==> FindPage(pages, id).value in pages && FindPage(pages, id).value.id == id
    ensures forall i | 0 <= i < |pages| && pages[i].id == id :: FindPage(pages, id) == Some(pages[i])
  {
    if pages != [] {
      FindPageExact(pages[..|pages| - 1], id);
    }
  }

  /** A hit reached over an edge, as the candidate it came from. */
  predicate IsChild(s: Settings, found: seq<Candidate>, x: Scored) {
    exists k | 0 <= k < |found| ::
      && x.page.id == found[k].link.target && x.score == ChildScore(s, found[k])
      && x.how == Via(found[k].parent.page.id, found[k].parent.score, found[k].link.score)
  }

  lemma {:induction false} ChildrenSound(f: Filters, s: Settings, pages: seq<Page>, found: seq<Candidate>)
    requires DistinctPages(pages)
    ensures var extra := Children(f, s, pages, found);
      AllShown(f, pages, extra) && forall k | 0 <= k < |extra| :: IsChild(s, found, extra[k])
  {
    if found != [] {
      var front, c := found[..|found| - 1], found[|found| - 1];
      var before, extra := Children(f, s, pages, front), Children(f, s, pages, found);
      ChildrenSound(f, s, pages, front);
      FindPageExact(pages, c.link.target);
      forall k | 0 <= k < |extra|
        ensures IsChild(s, found, extra[k])
      {
        if k < |before| {
          ChildOfMore(s, front, c, extra[k]);
          assert found == front + [c];
        } else {
          assert found[|front|] == c;
        }
      }
    }
  }

  lemma {:induction false} ChildrenDistinct(f: Filters, s: Settings, pages: seq<Page>, found: seq<Candidate>)
    requires DistinctPages(pages) && DistinctTargets(found)
    ensures DistinctHits(Children(f, s, pages, found))
  {
    if found != [] {
      var front, c := found[..|found| - 1], found[|found| - 1];
      var before := Children(f, s, pages, front);
      ChildrenDistinct(f, s, pages, front);
      ChildrenSound(f, s, pages, front);
      FindPageExact(pages, c.link.target);
      forall k | 0 <= k < |before|
        ensures before[k].page.id != c.link.target
      {
        assert IsChild(s, front, before[k]);
      }
    }
  }

  lemma {:induction false} ChildrenComplete(f: Filters, s: Settings, pages: seq<Page>, found: seq<Candidate>, p: Page)
    requires DistinctPages(pages) && p in pages && f.Shows(p) && IsTarget(found, p.id)
    ensures p.id in IdsOf(Children(f, s, pages, found))
  {
    var front, c := found[..|found| - 1], found[|found| - 1];
    var before, extra := Children(f, s, pages, front), Children(f, s, pages, found);
    FindPageExact(pages, c.link.target);
    if p.id == c.link.target {
      assert extra[|before|].page.id == p.id;
    } else {
      var k :| 0 <= k < |found| && found[k].link.target == p.id;
      assert front[k].link.target == p.id;
      ChildrenComplete(f, s, pages, front, p);
      var j :| 0 <= j < |before| && before[j].page.id == p.id;
      assert extra[j].page.id == p.id;
    }
  }

  lemma ChildOfMore(s: Settings, found: seq<Candidate>, c: Candidate, x: Scored)
    requires IsChild(s, found, x)
    ensures IsChild(s, found + [c], x)
  {
    var k :| 0 <= k < |found| && x.page.id == found[k].link.target && x.score == ChildScore(s, found[k])
      && x.how == Via(found[k].parent.page.id, found[k].parent.score, found[k].link.score);
    assert (found + [c])[k] == found[k];
  }

  // ---------------------------------------------------------------- the query's promises

  /** The hits sorted before any expansion. */
  function Ranked(f: Filters, s: Settings, pages: seq<Page>, links: seq<Link>): seq<Scored> {
    Sort(WithImportance(s, links, DirectHits(f, s, pages)))
  }

  /** What the walk over the top hits' edges met. */
  function Walk(f: Filters, s: Settings, pages: seq<Page>, links: seq<Link>): Reached {
    var ranked := Ranked(f, s, pages, links);
    FollowAll(s, links, Reached(IdsOf(ranked), []), Take(ranked, s.topHits))
  }

  lemma SortMembers(s: seq<Scored>, x: Scored)
    ensures x in Sort(s) <==> x in s
  {
    SortSorted(s);
    assert x in s <==> x in multiset(s);
    assert x in Sort(s) <==> x in multiset(Sort(s));
  }

  /** A list of hits with distinct ids keeps them when sorted. */
  lemma {:induction false} SortDistinct(s: seq<Scored>)
    requires DistinctHits(s)
    ensures DistinctHits(Sort(s))
  {
    if s != [] {
      var front, x := s[..|s| - 1], s[|s| - 1];
      SortDistinct(front);
      forall k | 0 <= k < |Sort(front)|
        ensures Sort(front)[k].page.id != x.page.id
      {
        SortMembers(front, Sort(front)[k]);
      }
      InsertDistinct(Sort(front), x);
    }
  }

  lemma {:induction false} InsertDistinct(s: seq<Scored>, x: Scored)
    requires DistinctHits(s) && forall k | 0 <= k < |s| :: s[k].page.id != x.page.id
    ensures DistinctHits(Insert(s, x))
  {
    if s != [] && s[|s| - 1].score < x.score {
      var front, last := s[..|s| - 1], s[|s| - 1];
      InsertDistinct(front, x);
      forall k | 0 <= k < |Insert(front, x)|
        ensures Insert(front, x)[k].page.id != last.page.id
      {
        InsertPermutes(front, x);
        assert Insert(front, x)[k] in multiset(Insert(front, x));
      }
    }
  }

  lemma RankedGood(f: Filters, s: Settings, pages: seq<Page>, links: seq<Link>)
    requires DistinctPages(pages)
    ensures var ranked := Ranked(f, s, pages, links);
      && DistinctHits(ranked) && AllShown(f, pages, ranked)
      && forall k | 0 <= k < |ranked| :: ranked[k].how == Direct && Relevant(s, ranked[k].page)
  {
    DirectHitsExact(f, s, pages);
    var hits := WithImportance(s, links, DirectHits(f, s, pages));
    SortDistinct(hits);
    var ranked := Ranked(f, s, pages, links);
    forall k | 0 <= k < |ranked|
      ensures ranked[k].page in pages && f.Shows(ranked[k].page) && ranked[k].how == Direct
          && Relevant(s, ranked[k].page)
    {
      SortMembers(hits, ranked[k]);
      var j :| 0 <= j < |hits| && hits[j] == ranked[k];
    }
  }

  /** Whatever was met by the walk is well founded: its parents are among the top hits. */
  lemma WalkGood(f: Filters, s: Settings, pages: seq<Page>, links: seq<Link>)
    ensures var top := Take(Ranked(f, s, pages, links), s.topHits);
      && WellReached(links, top, IdsOf(Ranked(f, s, pages, links)), Walk(f, s, pages, links))
      && forall k | 0 <= k < |top| :: Followed(s, links, top[k], Walk(f, s, pages, links).seen)
  {
    var ranked := Ranked(f, s, pages, links);
    FollowAllWell(s, links, Take(ranked, s.topHits), IdsOf(ranked), Take(ranked, s.topHits));
  }

  /** The candidates have distinct ids, and all of them may be shown to the caller. */
  lemma CandidatesGood(f: Filters, s: Settings, pages: seq<Page>, links: seq<Link>)
    requires DistinctPages(pages)
    ensures DistinctHits(Candidates(f, s, pages, links)) && AllShown(f, pages, Candidates(f, s, pages, links))
  {
    var ranked := Ranked(f, s, pages, links);
    RankedGood(f, s, pages, links);
    if s.expand && ranked != [] {
      WalkGood(f, s, pages, links);
      var found := Walk(f, s, pages, links).found;
      ChildrenSound(f, s, pages, found);
      ChildrenDistinct(f, s, pages, found);
      var extra := Children(f, s, pages, found);
      forall i, j | 0 <= i < |ranked| && 0 <= j < |extra|
        ensures ranked[i].page.id != extra[j].page.id
      {
        assert IsChild(s, found, extra[j]);
        assert ranked[i].page.id in IdsOf(ranked);
      }
    }
  }

  /** Nothing eligible is missed: every page that may be shown and passes the gate is a candidate. */
  lemma EveryRelevantPageIsCandidate(f: Filters, s: Settings, pages: seq<Page>, links: seq<Link>, p: Page)
    requires DistinctPages(pages) && p in pages && IsHit(f, s, p)
    ensures p.id in IdsOf(Candidates(f, s, pages, links))
  {
    DirectHitsExact(f, s, pages);
    var hits := WithImportance(s, links, DirectHits(f, s, pages));
    var k :| 0 <= k < |DirectHits(f, s, pages)| && DirectHits(f, s, pages)[k].page.id == p.id;
    SortMembers(hits, hits[k]);
    var j :| 0 <= j < |Sort(hits)| && Sort(hits)[j] == hits[k];
    assert Candidates(f, s, pages, links)[j].page.id == p.id;
  }

  lemma RankedIsCandidate(f: Filters, s: Settings, pages: seq<Page>, links: seq<Link>, id: Id)
    requires id in IdsOf(Ranked(f, s, pages, links))
    ensures id in IdsOf(Candidates(f, s, pages, links))
  {
    var ranked := Ranked(f, s, pages, links);
    var j :| 0 <= j < |ranked| && ranked[j].page.id == id;
    assert Candidates(f, s, pages, links)[j].page.id == id;
  }

  lemma ChildIsCandidate(f: Filters, s: Settings, pages: seq<Page>, links: seq<Link>, id: Id)
    requires s.expand && Ranked(f, s, pages, links) != []
    requires id in IdsOf(Expansion(f, s, pages, links, Ranked(f, s, pages, links)))
    ensures id in IdsOf(Candidates(f, s, pages, links))
  {
    var ranked := Ranked(f, s, pages, links);
    var extra := Expansion(f, s, pages, links, ranked);
    var j :| 0 <= j < |extra| && extra[j].page.id == id;
    assert Candidates(f, s, pages, links)[|ranked| + j].page.id == id;
  }

  /** With expansion on, every page that may be shown and that one of the best edges of a top hit
      leads to is a candidate. */
  lemma EveryNeighbourIsCandidate(f: Filters, s: Settings, pages: seq<Page>, links: seq<Link>, i: nat, k: nat, p: Page)
    requires DistinctPages(pages) && s.expand && p in pages && f.Shows(p)
    requires var ranked := Ranked(f, s, pages, links);
      && i < |ranked| && i < s.topHits
      && k < |Take(EdgesFrom(links, ranked[i].page.id), s.perHit)|
      && Take(EdgesFrom(links, ranked[i].page.id), s.perHit)[k].target == p.id
    ensures p.id in IdsOf(Candidates(f, s, pages, links))
  {
    var ranked := Ranked(f, s, pages, links);
    WalkGood(f, s, pages, links);
    assert Take(ranked, s.topHits)[i] == ranked[i];
    assert Followed(s, links, ranked[i], Walk(f, s, pages, links).seen);
    if p.id in IdsOf(ranked) {
      RankedIsCandidate(f, s, pages, links, p.id);
    } else {
      ChildrenComplete(f, s, pages, Walk(f, s, pages, links).found, p);
      ChildIsCandidate(f, s, pages, links, p.id);
    }
  }

  /** No element left out of the head of a sorted list scores above any element in it. */
  lemma HeadIsTop(all: seq<Scored>, limit: nat, c: Scored)
    requires c in all && c !in Take(Sort(all), limit)
    ensures |Take(Sort(all), limit)| == limit && forall k | 0 <= k < limit :: Sort(all)[k].score >= c.score
  {
    var sorted := Sort(all);
    SortSorted(all);
    SortMembers(all, c);
    assert limit < |sorted|;
    assert sorted == sorted[..limit] + sorted[limit..];
    var j :| limit <= j < |sorted| && sorted[j] == c;
  }

  /** The hits: sorted, distinct, allowed, and no omitted candidate scores above the last of them. */
  lemma QueryReturnsTopK(f: Filters, s: Settings, pages: seq<Page>, links: seq<Link>, limit: nat)
    requires DistinctPages(pages)
    ensures var all := Candidates(f, s, pages, links);
      var hits := Take(Sort(all), limit);
      && SortedDesc(hits) && DistinctHits(hits) && AllShown(f, pages, hits)
      && |hits| == (if limit < |all| then limit else |all|)
      && forall c | c in all && c !in hits :: |hits| == limit && forall k | 0 <= k < |hits| :: hits[k].score >= c.score
  {
    var all := Candidates(f, s, pages, links);
    CandidatesGood(f, s, pages, links);
    HitsGood(f, pages, all, limit);
    forall c | c in all && c !in Take(Sort(all), limit)
      ensures |Take(Sort(all), limit)| == limit && forall k | 0 <= k < limit :: Sort(all)[k].score >= c.score
    {
      HeadIsTop(all, limit, c);
    }
  }

  lemma HitsGood(f: Filters, pages: seq<Page>, all: seq<Scored>, limit: nat)
    requires DistinctHits(all) && AllShown(f, pages, all)
    ensures var hits := Take(Sort(all), limit);
      && SortedDesc(hits) && DistinctHits(hits) && AllShown(f, pages, hits)
      && |hits| == (if limit < |all| then limit else |all|)
  {
    var hits := Take(Sort(all), limit);
    SortSorted(all);
    SortDistinct(all);
    forall k | 0 <= k < |hits|
      ensures hits[k].page in pages && f.Shows(hits[k].page)
    {
      SortMembers(all, Sort(all)[k]);
      var j :| 0 <= j < |all| && all[j] == hits[k];
    }
  }

  /** An expanded candidate comes by a stored edge from one of the top hits. */
  lemma ExpandedComeFromTopHits(f: Filters, s: Settings, pages: seq<Page>, links: seq<Link>, x: Scored)
    returns (i: nat, l: Link)
    requires DistinctPages(pages) && x in Candidates(f, s, pages, links) && x.how.Via?
    ensures var ranked := Ranked(f, s, pages, links);
      && i < |ranked| && i < s.topHits && l in links && l.source == ranked[i].page.id && l.target == x.page.id
      && x.how == Via(ranked[i].page.id, ranked[i].score, l.score)
      && x.score == l.score * ranked[i].score * s.decay
      && s.expand && x in Expansion(f, s, pages, links, ranked)
  {
    ExpandedIsChild(f, s, pages, links, x);
    WalkFromTop(f, s, pages, links);
    i, l := ChildOrigin(s, links, Ranked(f, s, pages, links), Walk(f, s, pages, links).found, x);
  }

  lemma ExpandedIsChild(f: Filters, s: Settings, pages: seq<Page>, links: seq<Link>, x: Scored)
    requires DistinctPages(pages) && x in Candidates(f, s, pages, links) && x.how.Via?
    ensures s.expand && x in Expansion(f, s, pages, links, Ranked(f, s, pages, links))
    ensures IsChild(s, Walk(f, s, pages, links).found, x)
  {
    ViaMeansExpanded(f, s, pages, links, x);
    ChildrenSound(f, s, pages, Walk(f, s, pages, links).found);
  }

  lemma WalkFromTop(f: Filters, s: Settings, pages: seq<Page>, links: seq<Link>)
    ensures var ranked, found := Ranked(f, s, pages, links), Walk(f, s, pages, links).found;
      forall k | 0 <= k < |found| :: IsCandidate(links, Take(ranked, s.topHits), IdsOf(ranked), found[k])
  {
    WalkGood(f, s, pages, links);
  }

  lemma ViaMeansExpanded(f: Filters, s: Settings, pages: seq<Page>, links: seq<Link>, x: Scored)
    requires DistinctPages(pages) && x in Candidates(f, s, pages, links) && x.how.Via?
    ensures s.expand && x in Expansion(f, s, pages, links, Ranked(f, s, pages, links))
  {
    RankedGood(f, s, pages, links);
  }

  lemma ChildOrigin(s: Settings, links: seq<Link>, ranked: seq<Scored>, found: seq<Candidate>, x: Scored)
    returns (i: nat, l: Link)
    requires IsChild(s, found, x)
    requires forall k | 0 <= k < |found| :: IsCandidate(links, Take(ranked, s.topHits), IdsOf(ranked), found[k])
    ensures i < |ranked| && i < s.topHits && l in links && l.source == ranked[i].page.id && l.target == x.page.id
    ensures x.how == Via(ranked[i].page.id, ranked[i].score, l.score) && x.score == l.score * ranked[i].score * s.decay
  {
    var k :| 0 <= k < |found| && x.page.id == found[k].link.target && x.score == ChildScore(s, found[k])
      && x.how == Via(found[k].parent.page.id, found[k].parent.score, found[k].link.score);
    var top := Take(ranked, s.topHits);
    assert IsCandidate(links, top, IdsOf(ranked), found[k]);
    i :| 0 <= i < |top| && top[i] == found[k].parent;
    l := found[k].link;
  }

  /** Under a positive parent, an expanded hit scores no higher than the parent exactly when edge
      score times decay is at most one. */
  lemma ChildNotAboveParentIff(edge: real, parent: real, decay: real)
    requires parent > 0.0
    ensures edge * parent * decay <= parent <==> edge * decay <= 1.0
  {
    var e := edge * decay;
    assert edge * parent * decay == e * parent;
    if e <= 1.0 {
      assert (1.0 - e) * parent >= 0.0;
    } else {
      assert (e - 1.0) * parent > 0.0;
    }
  }

  lemma ProductAtMostOne(edge: real, decay: real)
    requires edge <= 1.0 && 0.0 <= decay <= 1.0
    ensures edge * decay <= 1.0
  {
    NonNegativeProduct(1.0 - edge, decay);
    assert (1.0 - edge) * decay == decay - edge * decay;
  }

  lemma NonNegativeProduct(a: real, b: real)
    requires a >= 0.0 && b >= 0.0
    ensures a * b >= 0.0
  {
  }

  /** An expanded hit never ranks above the hit it came from, so that hit is shown too. */
  lemma ExpandedRankBelowParent(f: Filters, s: Settings, pages: seq<Page>, links: seq<Link>, limit: nat, x: Scored)
    requires DistinctPages(pages) && 0.0 <= s.decay <= 1.0
    requires x in Take(Sort(Candidates(f, s, pages, links)), limit) && x.how.Via? && x.how.edge <= 1.0
        && x.how.parentScore >= 0.0
    ensures exists parent: Scored ::
      parent.page.id == x.how.parent && Precedes(Take(Sort(Candidates(f, s, pages, links)), limit), parent, x)
  {
    var sorted := Sort(Candidates(f, s, pages, links));
    var n :| 0 <= n < |Take(sorted, limit)| && Take(sorted, limit)[n] == x;
    SortMembers(Candidates(f, s, pages, links), sorted[n]);
    var i, l := ExpandedComeFromTopHits(f, s, pages, links, x);
    var parent := Ranked(f, s, pages, links)[i];
    NotAboveParent(l.score, parent.score, s.decay, x.score);
    ParentStandsBefore(f, s, pages, links, i, x);
    PrecedesInPrefix(f, s, pages, links, limit, parent, x);
  }

  lemma NotAboveParent(edge: real, parent: real, decay: real, score: real)
    requires edge <= 1.0 && 0.0 <= decay <= 1.0 && parent >= 0.0 && score == edge * parent * decay
    ensures score <= parent
  {
    ProductAtMostOne(edge, decay);
    if parent > 0.0 {
      ChildNotAboveParentIff(edge, parent, decay);
    }
  }

  lemma ParentStandsBefore(f: Filters, s: Settings, pages: seq<Page>, links: seq<Link>, i: nat, x: Scored)
    requires s.expand && i < |Ranked(f, s, pages, links)| && x.score <= Ranked(f, s, pages, links)[i].score
    requires x in Expansion(f, s, pages, links, Ranked(f, s, pages, links))
    ensures Precedes(Sort(Candidates(f, s, pages, links)), Ranked(f, s, pages, links)[i], x)
  {
    var all, ranked := Candidates(f, s, pages, links), Ranked(f, s, pages, links);
    var extra := Expansion(f, s, pages, links, ranked);
    var j :| 0 <= j < |extra| && extra[j] == x;
    assert all[i] == ranked[i] && all[|ranked| + j] == x;
    SortStable(all, i, |ranked| + j);
  }

  lemma PrecedesInPrefix(f: Filters, s: Settings, pages: seq<Page>, links: seq<Link>, limit: nat, a: Scored, x: Scored)
    requires DistinctPages(pages)
    requires var sorted := Sort(Candidates(f, s, pages, links)); Precedes(sorted, a, x) && x in Take(sorted, limit)
    ensures Precedes(Take(Sort(Candidates(f, s, pages, links)), limit), a, x)
  {
    var all := Candidates(f, s, pages, links);
    CandidatesGood(f, s, pages, links);
    SortDistinct(all);
    var sorted := Sort(all);
    var i, j :| 0 <= i < j < |sorted| && sorted[i] == a && sorted[j] == x;
    var n :| 0 <= n < |Take(sorted, limit)| && Take(sorted, limit)[n] == x;
    assert n == j;
    assert Take(sorted, limit)[i] == a;
  }
}
