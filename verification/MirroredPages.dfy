/** What the tables hold after a mirror, said of the pages themselves: item columns, provenance, tags,
    chunk rows and link rows. */
module MirroredPages {
  import opened Strings
  import opened Okf
  import opened Store
  import opened Versioning
  import opened Mirror

  // ---------------------------------------------------------------- provenance

  /** Target `b` of entry `a` of the source list is that page. */
  predicate SourceAt(t: Tools, sources: seq<string>, a: nat, b: nat, x: string) {
    a < |sources| && b < |t.targets(sources[a])| && t.slugify(t.targets(sources[a])[b]) == x
  }

  ghost predicate IsSourcePage(t: Tools, sources: seq<string>, x: string) {
    exists a: nat, b: nat :: SourceAt(t, sources, a, b, x)
  }

  /** The list names `x` somewhere before it ever names `y`. */
  ghost predicate NamedBefore(t: Tools, sources: seq<string>, x: string, y: string) {
    exists a: nat, b: nat :: SourceAt(t, sources, a, b, x) && FollowedBy(t, sources, a, b, y)
  }

  ghost predicate FollowedBy(t: Tools, sources: seq<string>, a: nat, b: nat, y: string) {
    forall c: nat, d: nat | SourceAt(t, sources, c, d, y) :: a < c || (a == c && b < d)
  }

  /** The resource of the page, and the pages its sources name, once each in first-seen order. */
  ghost predicate ProvenanceRight(t: Tools, fm: Frontmatter, p: Provenance) {
    && p.resource == fm.resource && Distinct(p.sourcePages)
    && (forall x :: x in p.sourcePages <==> IsSourcePage(t, fm.sources, x))
    && forall i, j | 0 <= i < j < |p.sourcePages| :: NamedBefore(t, fm.sources, p.sourcePages[i], p.sourcePages[j])
  }

  lemma {:induction false} FlatExact(t: Tools, sources: seq<string>, x: string)
    ensures x in Flat(t, sources) <==> IsSourcePage(t, sources, x)
  {
    if sources != [] {
      var n := |sources| - 1;
      var front, slugs := sources[..n], Slugs(t, t.targets(sources[n]));
      FlatExact(t, front, x);
      if x in Flat(t, front) {
        var a: nat, b: nat :| SourceAt(t, front, a, b, x);
        assert SourceAt(t, sources, a, b, x);
      }
      if x in slugs {
        var b :| 0 <= b < |slugs| && slugs[b] == x;
        assert SourceAt(t, sources, n, b, x);
      }
      if a: nat, b: nat :| SourceAt(t, sources, a, b, x) {
        if a < n {
          assert SourceAt(t, front, a, b, x);
        } else {
          assert slugs[b] == x;
        }
      }
    }
  }

  lemma {:induction false} FlatOrder(t: Tools, sources: seq<string>, x: string, y: string)
    requires ComesFirst(Flat(t, sources), x, y)
    ensures NamedBefore(t, sources, x, y)
  {
    var n := |sources| - 1;
    var front, slugs := sources[..n], Slugs(t, t.targets(sources[n]));
    FirstOfSum(Flat(t, front), slugs, x, y);
    if ComesFirst(Flat(t, front), x, y) {
      FlatOrder(t, front, x, y);
      var a: nat, b: nat :| SourceAt(t, front, a, b, x) && FollowedBy(t, front, a, b, y);
      OrderExtends(t, sources, a, b, x, y);
    } else {
      FlatExact(t, front, y);
      var b :| 0 <= b < |slugs| && slugs[b] == x && forall q | 0 <= q < |slugs| && slugs[q] == y :: b < q;
      OrderInLast(t, sources, b, x, y);
    }
  }

  lemma OrderExtends(t: Tools, sources: seq<string>, a: nat, b: nat, x: string, y: string)
    requires sources != []
    requires SourceAt(t, sources[..|sources| - 1], a, b, x) && FollowedBy(t, sources[..|sources| - 1], a, b, y)
    ensures NamedBefore(t, sources, x, y)
  {
    var front := sources[..|sources| - 1];
    forall c: nat, d: nat | SourceAt(t, sources, c, d, y)
      ensures a < c || (a == c && b < d)
    {
      assert c < |front| ==> SourceAt(t, front, c, d, y);
    }
    assert SourceAt(t, sources, a, b, x);
  }

  lemma OrderInLast(t: Tools, sources: seq<string>, b: nat, x: string, y: string)
    requires sources != [] && b < |t.targets(sources[|sources| - 1])|
    requires var slugs := Slugs(t, t.targets(sources[|sources| - 1]));
      slugs[b] == x && forall q | 0 <= q < |slugs| && slugs[q] == y :: b < q
    requires !IsSourcePage(t, sources[..|sources| - 1], y)
    ensures NamedBefore(t, sources, x, y)
  {
    var n := |sources| - 1;
    var front, slugs := sources[..n], Slugs(t, t.targets(sources[n]));
    forall c: nat, d: nat | SourceAt(t, sources, c, d, y)
      ensures n < c || (n == c && b < d)
    {
      assert !SourceAt(t, front, c, d, y);
      assert c == n ==> slugs[d] == y;
    }
    assert SourceAt(t, sources, n, b, x);
  }

  lemma ProvenanceIsRight(t: Tools, fm: Frontmatter)
    ensures ProvenanceRight(t, fm, ProvenanceOf(t, fm))
  {
    var pages := ProvenanceOf(t, fm).sourcePages;
    forall x
      ensures x in pages <==> IsSourcePage(t, fm.sources, x)
    {
      FlatExact(t, fm.sources, x);
    }
    forall i, j | 0 <= i < j < |pages|
      ensures NamedBefore(t, fm.sources, pages[i], pages[j])
    {
      DedupedOrder(Flat(t, fm.sources), i, j);
      FlatOrder(t, fm.sources, pages[i], pages[j]);
    }
  }

  // ---------------------------------------------------------------- chunk rows

  /** The rows of the item are those at these places, one after the other, and hold these texts. */
  predicate RowsAt(chunks: seq<Chunk>, slug: string, texts: seq<string>, at: seq<nat>) {
    && |at| == |texts| && (forall j, k | 0 <= j < k < |at| :: at[j] < at[k])
    && (forall k | 0 <= k < |at| :: at[k] < |chunks| && chunks[at[k]].item == slug && chunks[at[k]].text == texts[k])
    && forall i | 0 <= i < |chunks| && chunks[i].item == slug :: i in at
  }

  lemma {:induction false} TextsAreRows(chunks: seq<Chunk>, slug: string) returns (at: seq<nat>)
    ensures RowsAt(chunks, slug, TextsOf(chunks, slug), at)
  {
    at := [];
    if chunks != [] {
      var front, n := chunks[..|chunks| - 1], |chunks| - 1;
      at := TextsAreRows(front, slug);
      assert forall i | 0 <= i < n :: chunks[i] == front[i];
      if chunks[n].item == slug {
        at := at + [n];
      }
    }
  }

  /** Row `k` of a body that is chunked anew. */
  lemma {:induction false} NewRowAt(next: nat, slug: string, version: nat, texts: seq<string>, k: nat)
    requires k < |texts|
    ensures |NewRows(next, slug, version, texts)| == |texts|
    ensures NewRows(next, slug, version, texts)[k] == Chunk(next + k, slug, version, k, texts[k], None)
  {
    if |texts| > 1 {
      NewRowAt(next, slug, version, texts[..|texts| - 1], if k < |texts| - 1 then k else 0);
    }
  }

  lemma {:induction false} OthersExact(chunks: seq<Chunk>, slug: string, c: Chunk)
    ensures c in Others(chunks, slug) <==> c in chunks && c.item != slug
  {
    if chunks != [] {
      OthersExact(chunks[..|chunks| - 1], slug, c);
      assert chunks == chunks[..|chunks| - 1] + [chunks[|chunks| - 1]];
    }
  }

  /** A page whose body is chunked on its turn has one fresh row per text, numbered from 0, at its live
      version and still without a vector; the rows of other items stay. */
  lemma FreshRows(t: Tools, db: Db, e: Entry, c: Chunk)
    requires Inv(t, db) && (!Unchanged(db, e) || forall k | 0 <= k < |db.chunks| :: db.chunks[k].item != e.Slug())
    ensures var out, texts := PageMirrored(t, db, e), t.chunks(e.page.body);
      && e.Slug() in out.items && out.items[e.Slug()].current.Some?
      && (c in out.chunks <==>
           || (c in db.chunks && c.item != e.Slug())
           || exists k: nat :: k < |texts|
                && c == Chunk(db.nextChunk + k, e.Slug(), out.items[e.Slug()].current.value, k, texts[k], None))
  {
    HasTextsIff(db.chunks, e.Slug());
    var version := if Unchanged(db, e) then db.items[e.Slug()].current.value else |db.versions|;
    var texts := t.chunks(e.page.body);
    var rows := NewRows(db.nextChunk, e.Slug(), version, texts);
    OthersExact(db.chunks, e.Slug(), c);
    RowsExact(db.nextChunk, e.Slug(), version, texts, c);
    assert PageMirrored(t, db, e).chunks == Others(db.chunks, e.Slug()) + rows;
  }

  lemma RowsExact(next: nat, slug: string, version: nat, texts: seq<string>, c: Chunk)
    ensures c in NewRows(next, slug, version, texts) <==>
      exists k: nat :: k < |texts| && c == Chunk(next + k, slug, version, k, texts[k], None)
  {
    var rows := NewRows(next, slug, version, texts);
    if texts != [] {
      NewRowAt(next, slug, version, texts, 0);
    }
    forall k: nat | k < |texts|
      ensures rows[k] == Chunk(next + k, slug, version, k, texts[k], None)
    {
      NewRowAt(next, slug, version, texts, k);
    }
  }

  // ---------------------------------------------------------------- the item and its version

  predicate NormalizesTo(t: Tools, tags: seq<string>, x: string) {
    x != "" && exists i | 0 <= i < |tags| :: t.normalize(tags[i]) == x
  }

  /** The tables show the page: its columns, its live version, its tags, its provenance and its chunks. */
  ghost predicate ShowsPage(t: Tools, db: Db, e: Entry) {
    var slug, fm := e.page.slug, e.page.frontmatter;
    && slug in db.items && db.items[slug].current.Some? && db.items[slug].current.value < |db.versions|
    && var item, live := db.items[slug], db.versions[db.items[slug].current.value];
    && live.item == slug && live.status == Published && live.title == fm.title && live.body == e.page.body
    && item.kind == e.kind && item.title == fm.title && item.domain == t.domain(fm.domain)
    && item.provenance.Some? && ProvenanceRight(t, fm, item.provenance.value)
    && (forall x :: (slug, x) in db.tags <==> NormalizesTo(t, fm.tags, x))
    && exists at :: RowsAt(db.chunks, slug, t.chunks(e.page.body), at)
  }

  lemma SyncedShowsPage(t: Tools, db: Db, e: Entry)
    requires Lifecycle(db) && Synced(t, db, e)
    ensures ShowsPage(t, db, e)
  {
    var slug, fm := e.Slug(), e.page.frontmatter;
    ProvenanceIsRight(t, fm);
    assert PointerOk(db, slug);
    var _ := TextsAreRows(db.chunks, slug);
    TagsAreNormalized(t, db, slug, fm.tags);
  }

  lemma TagsAreNormalized(t: Tools, db: Db, slug: string, tags: seq<string>)
    requires TagsOf(db.tags, slug) == TagSet(t, tags)
    ensures forall x :: (slug, x) in db.tags <==> NormalizesTo(t, tags, x)
  {
    forall x
      ensures (slug, x) in db.tags <==> NormalizesTo(t, tags, x)
    {
      assert (slug, x) in db.tags <==> x in TagsOf(db.tags, slug) by {
        assert (slug, x).0 == slug && (slug, x).1 == x;
      }
    }
  }

  /** After a mirror from whatever tables each page of the bundle is shown, column by column. */
  lemma MirrorShowsPages(t: Tools, db: Db, entries: seq<Entry>, k: nat)
    requires Inv(t, db) && DistinctSlugs(entries) && k < |entries|
    ensures ShowsPage(t, Mirrored(t, db, entries), entries[k])
  {
    MirrorSyncs(t, db, entries);
    assert Synced(t, Mirrored(t, db, entries), entries[k]);
    SyncedShowsPage(t, Mirrored(t, db, entries), entries[k]);
  }

  /** The item's live version has the title and body of the page. */
  predicate LiveAlready(db: Db, e: Entry) {
    var slug := e.page.slug;
    && slug in db.items && db.items[slug].current.Some? && db.items[slug].current.value < |db.versions|
    && db.versions[db.items[slug].current.value].body == e.page.body
    && db.versions[db.items[slug].current.value].title == e.page.frontmatter.title
  }

  /** A page that is not live as it stands is published as its item's newest version, and the item goes
      live, archived or not; the status of any other page is not touched. */
  lemma PagePublishes(t: Tools, db: Db, e: Entry)
    requires Lifecycle(db)
    ensures var out, slug := PageMirrored(t, db, e), e.page.slug;
      && slug in out.items
      && if LiveAlready(db, e) then out.versions == db.versions && out.items[slug].status == db.items[slug].status
         else (&& out.items[slug].status == Live && out.items[slug].current == Some(|db.versions|)
               && out.versions == db.versions + [Version(slug, CountOf(db.versions, slug) + 1, Published,
                                                          e.page.frontmatter.title, e.page.body)])
  {
    MaxIsCount(db.versions, e.page.slug);
  }

  /** The count of changed pages is the number of versions added. */
  lemma {:induction false} ChangedAreVersions(t: Tools, db: Db, entries: seq<Entry>)
    ensures |Mirrored(t, db, entries).versions| == |db.versions| + ChangedCount(t, db, entries)
  {
    PassVersions(t, db, entries);
  }

  lemma {:induction false} PassVersions(t: Tools, db: Db, entries: seq<Entry>)
    ensures |FirstPass(t, db, entries).versions| == |db.versions| + ChangedCount(t, db, entries)
  {
    if entries != [] {
      PassVersions(t, db, entries[..|entries| - 1]);
    }
  }

  // ---------------------------------------------------------------- link rows

  /** A link in the body of page `k` to another item, as the row it is stored in. */
  predicate LinkOf(t: Tools, items: set<string>, entries: seq<Entry>, k: nat, j: nat, l: WikiLink) {
    && k < |entries| && j < |t.targets(entries[k].page.body)|
    && l.source == entries[k].page.slug && l.target == t.slugify(t.targets(entries[k].page.body)[j])
    && l.relation == "related" && l.score == 1.0 && l.origin == Explicit
    && l.target in items && l.target != l.source
  }

  ghost predicate IsBodyLink(t: Tools, items: set<string>, entries: seq<Entry>, l: WikiLink) {
    exists k: nat, j: nat :: LinkOf(t, items, entries, k, j, l)
  }

  predicate TargetOf(t: Tools, names: seq<string>, j: nat, x: string) {
    j < |names| && t.slugify(names[j]) == x
  }

  lemma {:induction false} PairsToExact(t: Tools, items: set<string>, slug: string, names: seq<string>,
                                        p: (string, string))
    ensures p in PairsTo(t, items, slug, names) <==>
      p.0 == slug && p.1 in items && p.1 != slug && exists j: nat :: TargetOf(t, names, j, p.1)
  {
    if names != [] {
      var front, n := names[..|names| - 1], |names| - 1;
      PairsToExact(t, items, slug, front, p);
      assert forall j: nat | j < n :: TargetOf(t, front, j, p.1) <==> TargetOf(t, names, j, p.1);
      assert TargetOf(t, names, n, p.1) <==> t.slugify(names[n]) == p.1;
    }
  }

  lemma {:induction false} WantedExact(t: Tools, items: set<string>, entries: seq<Entry>, p: (string, string))
    ensures p in WantedPairs(t, items, entries) <==>
      IsBodyLink(t, items, entries, WikiLink(p.0, p.1, "related", 1.0, Explicit))
  {
    var l := WikiLink(p.0, p.1, "related", 1.0, Explicit);
    if entries != [] {
      var front, n := entries[..|entries| - 1], |entries| - 1;
      WantedExact(t, items, front, p);
      PairsToExact(t, items, entries[n].Slug(), t.targets(entries[n].page.body), p);
      assert forall k: nat, j: nat | k < n :: LinkOf(t, items, front, k, j, l) <==> LinkOf(t, items, entries, k, j, l);
      assert forall j: nat :: LinkOf(t, items, entries, n, j, l) <==>
        TargetOf(t, t.targets(entries[n].page.body), j, p.1)
        && p.0 == entries[n].Slug() && p.1 in items && p.1 != p.0;
    }
  }

  /** The link rows after a mirror: those it has no business with, similarity links and links between items
      outside the bundle, and one for each link in a body to another item. */
  lemma MirroredLinksExact(t: Tools, db: Db, entries: seq<Entry>, l: WikiLink)
    ensures var out, slugs := Mirrored(t, db, entries), set k | 0 <= k < |entries| :: entries[k].page.slug;
      l in out.links <==>
        || (l in db.links && !(l.origin == Explicit && (l.source in slugs || l.target in slugs)))
        || IsBodyLink(t, db.items.Keys + slugs, entries, l)
  {
    var slugs := set k | 0 <= k < |entries| :: entries[k].page.slug;
    var mid := FirstPass(t, db, entries);
    assert slugs == SlugsOf(entries);
    FirstPassItems(t, db, entries);
    PassLinks(t, db, entries);
    WantedExact(t, mid.items.Keys, entries, (l.source, l.target));
    var rows := LinkRows(WantedPairs(t, mid.items.Keys, entries));
    assert l in rows <==> l == WikiLink(l.source, l.target, "related", 1.0, Explicit)
                          && (l.source, l.target) in WantedPairs(t, mid.items.Keys, entries);
  }

  lemma {:induction false} PassLinks(t: Tools, db: Db, entries: seq<Entry>)
    ensures FirstPass(t, db, entries).links == db.links
  {
    if entries != [] {
      PassLinks(t, db, entries[..|entries| - 1]);
    }
  }
}
