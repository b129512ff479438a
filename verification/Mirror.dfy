/** The mirror: sync a bundle of pages into the tables, touching only what changed, and rebuild the
    explicit link rows of the synced pages. */
module Mirror {
  import opened Strings
  import opened Okf
  import opened Bundle
  import opened Store
  import opened Versioning

  /** The text functions the mirror applies, whatever they compute. */
  datatype Tools = Tools(slugify: string -> string,          // a name's slug
                         targets: string -> seq<string>,     // the wikilink targets in a text
                         chunks: string -> seq<string>,      // a body's chunk texts
                         normalize: string -> string,        // a tag, trimmed and lower-cased
                         domain: Option<string> -> Option<string>)  // the governed domain, if it is one

  /** A page together with the type of the directory it was found in. */
  datatype Entry = Entry(kind: PageType, page: Page) {
    function Slug(): string { page.slug }
  }

  predicate DistinctSlugs(entries: seq<Entry>) {
    forall i, j | 0 <= i < j < |entries| :: entries[i].Slug() != entries[j].Slug()
  }

  function SlugsOf(entries: seq<Entry>): set<string> {
    set k | 0 <= k < |entries| :: entries[k].Slug()
  }

  /** One entry per slug of the bundle: the page of the first directory that holds the slug. */
  ghost predicate Collected(b: Pages, entries: seq<Entry>) {
    && DistinctSlugs(entries)
    && (forall k: nat | k < |entries| :: FirstSeen(b, entries[k]))
    && SlugsOf(entries) == AllSlugs(b)
  }

  predicate FirstSeen(b: Pages, e: Entry) {
    FirstType(b, e.Slug()) == Some(e.kind) && PageKey(e.kind, e.Slug()) in b && b[PageKey(e.kind, e.Slug())] == e.page
  }

  method CollectPages(bundle: OkfBundle) returns (entries: seq<Entry>)
    requires WellFormed(bundle.pages)
    ensures Collected(bundle.pages, entries)
  {
    entries := [];
    var seen: set<string> := {};
    for i := 0 to |PageTypes|
      invariant Collecting(bundle.pages, i, entries, seen)
      invariant forall j | 0 <= j < i :: SlugsOfType(bundle.pages, PageTypes[j]) <= seen
    {
      entries, seen := CollectType(bundle, i, entries, seen);
    }
    forall key | key in bundle.pages
      ensures key.slug in seen
    {
      assert key.slug in SlugsOfType(bundle.pages, key.kind);
      var j := EveryTypeListed(key.kind);
      assert SlugsOfType(bundle.pages, PageTypes[j]) <= seen;
    }
    forall x | x in seen
      ensures x in AllSlugs(bundle.pages)
    {
      FirstTypeExact(bundle.pages, x);
    }
  }

  /** Entries of distinct slugs, each first seen in one of the first `n` directories. */
  ghost predicate Collecting(b: Pages, n: nat, entries: seq<Entry>, seen: set<string>) {
    && n <= |PageTypes| && DistinctSlugs(entries) && SlugsOf(entries) == seen
    && (forall k: nat | k < |entries| :: FirstSeen(b, entries[k]))
    && forall x | x in seen :: FirstType(b, x).Some? && FirstType(b, x).value in PageTypes[..n]
  }

  /** One directory: slugs seen in an earlier one are dropped. */
  method CollectType(bundle: OkfBundle, i: nat, entries0: seq<Entry>, seen0: set<string>)
    returns (entries: seq<Entry>, seen: set<string>)
    requires WellFormed(bundle.pages) && i < |PageTypes| && Collecting(bundle.pages, i, entries0, seen0)
    requires forall j | 0 <= j < i :: SlugsOfType(bundle.pages, PageTypes[j]) <= seen0
    ensures Collecting(bundle.pages, i + 1, entries, seen)
    ensures seen0 <= seen && SlugsOfType(bundle.pages, PageTypes[i]) <= seen
  {
    var kind := PageTypes[i];
    var slugs := bundle.ListPages(kind);
    entries, seen := entries0, seen0;
    for j := 0 to |slugs|
      invariant Collecting(bundle.pages, i + 1, entries, seen) && seen0 <= seen
      invariant forall m | 0 <= m < j :: slugs[m] in seen
    {
      var slug := slugs[j];
      assert slug in (set x | x in slugs);
      InType(bundle.pages, kind, slug);
      var page := bundle.ReadPage(kind, slug);
      if slug !in seen && page.Some? {
        CollectOne(bundle.pages, i, entries, seen, slug);
        entries := entries + [Entry(kind, page.value)];
        seen := seen + {slug};
      }
    }
  }

  lemma CollectOne(b: Pages, i: nat, entries: seq<Entry>, seen: set<string>, slug: string)
    requires WellFormed(b) && i < |PageTypes| && Collecting(b, i + 1, entries, seen) && slug !in seen
    requires PageKey(PageTypes[i], slug) in b && forall j | 0 <= j < i :: slug !in SlugsOfType(b, PageTypes[j])
    ensures var e := Entry(PageTypes[i], b[PageKey(PageTypes[i], slug)]);
      Collecting(b, i + 1, entries + [e], seen + {slug})
  {
    var more := entries + [Entry(PageTypes[i], b[PageKey(PageTypes[i], slug)])];
    FirstTypeAt(b, i, slug);
    assert SlugsOf(more) == seen + {slug} by {
      assert forall k | 0 <= k < |entries| :: more[k] == entries[k];
      assert more[|entries|].Slug() == slug;
    }
  }

  // ---------------------------------------------------------------- chunk rows

  function TextsOf(chunks: seq<Chunk>, slug: string): seq<string> {
    if chunks == [] then []
    else
      var before, c := TextsOf(chunks[..|chunks| - 1], slug), chunks[|chunks| - 1];
      if c.item == slug then before + [c.text] else before
  }

  /** The rows left when an item's chunks are deleted. */
  function Others(chunks: seq<Chunk>, slug: string): seq<Chunk> {
    if chunks == [] then []
    else
      var before, c := Others(chunks[..|chunks| - 1], slug), chunks[|chunks| - 1];
      if c.item == slug then before else before + [c]
  }

  /** Fresh rows, their vectors still missing. */
  function NewRows(next: nat, slug: string, version: nat, texts: seq<string>): seq<Chunk> {
    if texts == [] then []
    else
      var n := |texts| - 1;
      NewRows(next, slug, version, texts[..n]) + [Chunk(next + n, slug, version, n, texts[n], None)]
  }

  function Rechunked(db: Db, slug: string, version: nat, texts: seq<string>): Db {
    db.(chunks := Others(db.chunks, slug) + NewRows(db.nextChunk, slug, version, texts),
        nextChunk := db.nextChunk + |texts|)
  }

  method StoreChunks(s: Session, slug: string, version: nat, texts: seq<string>)
    modifies s`chunks, s`nextChunk
    ensures s.View() == Rechunked(old(s.View()), slug, version, texts)
  {
    var kept := [];
    for i := 0 to |s.chunks|
      invariant kept == Others(s.chunks[..i], slug)
    {
      assert s.chunks[..i + 1][..i] == s.chunks[..i];
      if s.chunks[i].item != slug {
        kept := kept + [s.chunks[i]];
      }
    }
    assert s.chunks[..|s.chunks|] == s.chunks;
    s.chunks := kept;
    for i := 0 to |texts|
      invariant s.chunks == kept + NewRows(old(s.nextChunk), slug, version, texts[..i])
      invariant s.nextChunk == old(s.nextChunk) + i
    {
      assert texts[..i + 1][..i] == texts[..i];
      s.chunks := s.chunks + [Chunk(s.nextChunk, slug, version, i, texts[i], None)];
      s.nextChunk := s.nextChunk + 1;
    }
    assert texts[..|texts|] == texts;
  }

  // ---------------------------------------------------------------- tags

  function TagSet(t: Tools, raw: seq<string>): set<string> {
    set x | x in raw && t.normalize(x) != "" :: t.normalize(x)
  }

  function TagsOf(tags: set<(string, string)>, slug: string): set<string> {
    set x | x in tags && x.0 == slug :: x.1
  }

  function Retagged(tags: set<(string, string)>, slug: string, want: set<string>): set<(string, string)> {
    (set x | x in tags && x.0 != slug) + (set w | w in want :: (slug, w))
  }

  /** Trimmed, lower-cased, non-empty tags, each once, in first-seen order. */
  method NormalizeTags(t: Tools, raw: seq<string>) returns (out: seq<string>)
    ensures Distinct(out) && (set x | x in out) == TagSet(t, raw)
  {
    out := [];
    var seen := {};
    for i := 0 to |raw|
      invariant Distinct(out) && seen == (set x | x in out) == TagSet(t, raw[..i])
    {
      var norm := t.normalize(raw[i]);
      assert raw[..i + 1] == raw[..i] + [raw[i]];
      if norm != "" && norm !in seen {
        seen := seen + {norm};
        out := out + [norm];
      }
      TagSetStep(t, raw[..i], raw[i]);
    }
    assert raw[..|raw|] == raw;
  }

  lemma TagSetStep(t: Tools, raw: seq<string>, x: string)
    ensures TagSet(t, raw + [x]) == TagSet(t, raw) + if t.normalize(x) != "" then {t.normalize(x)} else {}
  {
  }

  /** Insert and delete only what differs. */
  method SyncItemTags(t: Tools, s: Session, slug: string, raw: seq<string>)
    modifies s`tags
    ensures s.tags == Retagged(old(s.tags), slug, TagSet(t, raw))
  {
    var list := NormalizeTags(t, raw);
    var desired := set x | x in list;
    var existing := TagsOf(s.tags, slug);
    var stale := existing - desired;
    s.tags := set x | x in s.tags && !(x.0 == slug && x.1 in stale);
    var missing := desired - existing;
    while missing != {}
      invariant missing <= desired - existing
      invariant s.tags == (set x | x in old(s.tags)
          && !(x.0 == slug && x.1 in stale)) + (set w | w in desired - existing - missing :: (slug, w))
      decreases missing
    {
      var w :| w in missing;
      s.tags := s.tags + {(slug, w)};
      missing := missing - {w};
    }
  }

  // ---------------------------------------------------------------- one page

  function Flat(t: Tools, sources: seq<string>): seq<string> {
    if sources == [] then [] else Flat(t, sources[..|sources| - 1]) + Slugs(t, t.targets(sources[|sources| - 1]))
  }

  function Slugs(t: Tools, names: seq<string>): seq<string> {
    seq(|names|, i requires 0 <= i < |names| => t.slugify(names[i]))
  }

  function ProvenanceOf(t: Tools, fm: Frontmatter): Provenance {
    Provenance(fm.resource, Deduped(Flat(t, fm.sources)))
  }

  /** The item row before the content check: created or corrected, with provenance and domain. */
  function Prepared(t: Tools, db: Db, e: Entry): Item {
    var item := if e.Slug() in db.items then db.items[e.Slug()].(kind := e.kind)
                else Item(e.page.frontmatter.title, Draft, e.kind, None, None, None);
    item.(provenance := Some(ProvenanceOf(t, e.page.frontmatter)), domain := t.domain(e.page.frontmatter.domain))
  }

  /** The live version already has this title and body. */
  predicate Unchanged(db: Db, e: Entry) {
    && e.Slug() in db.items && db.items[e.Slug()].current.Some? && db.items[e.Slug()].current.value < |db.versions|
    && db.versions[db.items[e.Slug()].current.value].body == e.page.body
    && db.versions[db.items[e.Slug()].current.value].title == e.page.frontmatter.title
  }

  function Republished(t: Tools, db: Db, e: Entry): Db
    requires e.Slug() in db.items
  {
    var v, title := |db.versions|, e.page.frontmatter.title;
    var item := db.items[e.Slug()].(current := Some(v), status := Live, title := title);
    var row := Version(e.Slug(), MaxNumber(db.versions, e.Slug()) + 1, Published, title, e.page.body);
    Rechunked(db.(items := db.items[e.Slug() := item], versions := db.versions + [row]),
              e.Slug(), v, t.chunks(e.page.body))
  }

  /** Type, provenance, domain and tags are brought in line on every mirror. */
  function Relabelled(t: Tools, db: Db, e: Entry): Db {
    db.(items := db.items[e.Slug() := Prepared(t, db, e)],
        tags := Retagged(db.tags, e.Slug(), TagSet(t, e.page.frontmatter.tags)))
  }

  /** The tables after one page of the first pass. */
  function PageMirrored(t: Tools, db: Db, e: Entry): Db {
    var db1 := Relabelled(t, db, e);
    if !Unchanged(db, e) then Republished(t, db1, e)
    else if TextsOf(db.chunks, e.Slug()) != [] then db1
    else Rechunked(db1, e.Slug(), db.items[e.Slug()].current.value, t.chunks(e.page.body))
  }

  method PrepareItem(t: Tools, s: Session, e: Entry)
    modifies s`items
    ensures s.items == old(s.items)[e.Slug() := Prepared(t, old(s.View()), e)]
  {
    var slug := e.Slug();
    if slug !in s.items {
      s.items := s.items[slug := Item(e.page.frontmatter.title, Draft, e.kind, None, None, None)];
    } else {
      s.items := s.items[slug := s.items[slug].(kind := e.kind)];
    }
    var provenance := Some(ProvenanceOf(t, e.page.frontmatter));
    if s.items[slug].provenance != provenance {
      s.items := s.items[slug := s.items[slug].(provenance := provenance)];
    }
    var domain := t.domain(e.page.frontmatter.domain);
    if s.items[slug].domain != domain {
      s.items := s.items[slug := s.items[slug].(domain := domain)];
    }
  }

  method MirrorPage(t: Tools, s: Session, e: Entry, withChunks: set<string>) returns (changed: bool)
    requires e.Slug() in withChunks <==> TextsOf(s.chunks, e.Slug()) != []
    modifies s
    ensures s.View() == PageMirrored(t, old(s.View()), e)
    ensures changed == !Unchanged(old(s.View()), e)
  {
    var slug := e.Slug();
    PrepareItem(t, s, e);
    SyncItemTags(t, s, slug, e.page.frontmatter.tags);
    var current := s.items[slug].current;
    if current.Some? && current.value < |s.versions|
       && s.versions[current.value].body == e.page.body && s.versions[current.value].title == e.page.frontmatter.title {
      if slug !in withChunks {
        StoreChunks(s, slug, current.value, t.chunks(e.page.body));
      }
      changed := false;
    } else {
      PublishPage(t, s, e);
      changed := true;
    }
  }

  /** A new published version becomes the live one, and its body is chunked. */
  method PublishPage(t: Tools, s: Session, e: Entry)
    requires e.Slug() in s.items
    modifies s
    ensures s.View() == Republished(t, old(s.View()), e)
  {
    var v := |s.versions|;
    s.versions := s.versions +
      [Version(e.Slug(), MaxNumber(s.versions, e.Slug()) + 1, Published, e.page.frontmatter.title, e.page.body)];
    s.items := s.items[e.Slug() :=
      s.items[e.Slug()].(current := Some(v), status := Live, title := e.page.frontmatter.title)];
    StoreChunks(s, e.Slug(), v, t.chunks(e.page.body));
  }

  // ---------------------------------------------------------------- what a page should look like

  datatype PageView = PageView(kind: PageType, title: string, body: string, domain: Option<string>, tags: set<string>,
                               provenance: Option<Provenance>, texts: seq<string>)

  /** What readers of the tables see of a page. */
  function ViewOf(db: Db, slug: string): Option<PageView> {
    if slug in db.items && db.items[slug].current.Some? && db.items[slug].current.value < |db.versions| then
      var item := db.items[slug];
      Some(PageView(item.kind, item.title, db.versions[item.current.value].body, item.domain, TagsOf(db.tags, slug),
                    item.provenance, TextsOf(db.chunks, slug)))
    else None
  }

  /** What the bundle says they should see. */
  function Wanted(t: Tools, e: Entry): PageView {
    PageView(e.kind, e.page.frontmatter.title, e.page.body, t.domain(e.page.frontmatter.domain),
             TagSet(t, e.page.frontmatter.tags), Some(ProvenanceOf(t, e.page.frontmatter)), t.chunks(e.page.body))
  }

  predicate Synced(t: Tools, db: Db, e: Entry) {
    ViewOf(db, e.Slug()) == Some(Wanted(t, e))
  }

  /** A live item's chunk rows are missing or those of its live body. */
  predicate ChunksOk(t: Tools, db: Db, slug: string) {
    ViewOf(db, slug).Some? && TextsOf(db.chunks, slug) != [] ==>
      TextsOf(db.chunks, slug) == t.chunks(ViewOf(db, slug).value.body)
  }

  /** What every step keeps. */
  ghost predicate Inv(t: Tools, db: Db) {
    Lifecycle(db) && forall slug :: ChunksOk(t, db, slug)
  }

  // ---------------------------------------------------------------- chunk rows of one item

  lemma {:induction false} TextsOfSum(a: seq<Chunk>, b: seq<Chunk>, slug: string)
    ensures TextsOf(a + b, slug) == TextsOf(a, slug) + TextsOf(b, slug)
  {
    if b == [] {
      assert a + b == a;
    } else {
      assert (a + b)[..|a + b| - 1] == a + b[..|b| - 1];
      TextsOfSum(a, b[..|b| - 1], slug);
    }
  }

  lemma {:induction false} TextsOfOthers(chunks: seq<Chunk>, slug: string, o: string)
    ensures TextsOf(Others(chunks, slug), o) == if o == slug then [] else TextsOf(chunks, o)
  {
    if chunks != [] {
      var front, c := chunks[..|chunks| - 1], chunks[|chunks| - 1];
      TextsOfOthers(front, slug, o);
      if c.item != slug {
        assert (Others(front, slug) + [c])[..|Others(front, slug)|] == Others(front, slug);
      }
    }
  }

  lemma {:induction false} TextsOfNewRows(next: nat, slug: string, version: nat, texts: seq<string>, o: string)
    ensures TextsOf(NewRows(next, slug, version, texts), o) == if o == slug then texts else []
  {
    if texts != [] {
      var n := |texts| - 1;
      var front := NewRows(next, slug, version, texts[..n]);
      TextsOfNewRows(next, slug, version, texts[..n], o);
      assert NewRows(next, slug, version, texts)[..|front|] == front;
      assert texts == texts[..n] + [texts[n]];
    }
  }

  lemma TextsOfRechunked(db: Db, slug: string, version: nat, texts: seq<string>, o: string)
    ensures TextsOf(Rechunked(db, slug, version, texts).chunks, o) == if o == slug then texts else TextsOf(db.chunks, o)
  {
    TextsOfSum(Others(db.chunks, slug), NewRows(db.nextChunk, slug, version, texts), o);
    TextsOfOthers(db.chunks, slug, o);
    TextsOfNewRows(db.nextChunk, slug, version, texts, o);
  }

  lemma TagsOfRetagged(tags: set<(string, string)>, slug: string, want: set<string>, o: string)
    ensures TagsOf(Retagged(tags, slug, want), o) == if o == slug then want else TagsOf(tags, o)
  {
    var now := Retagged(tags, slug, want);
    forall w
      ensures w in TagsOf(now, o) <==> w in (if o == slug then want else TagsOf(tags, o))
    {
      assert w in TagsOf(now, o) <==> (o, w) in now;
      assert w in TagsOf(tags, o) <==> (o, w) in tags;
    }
  }

  // ---------------------------------------------------------------- one page is synced, the others kept

  lemma PrepareKeepsLifecycle(t: Tools, db: Db, e: Entry)
    requires Lifecycle(db) && e.Slug() in db.items
    ensures Lifecycle(Relabelled(t, db, e))
  {
    TouchKeepsLifecycle(db, Relabelled(t, db, e));
  }

  lemma PageKeepsLifecycle(t: Tools, db: Db, e: Entry)
    requires Lifecycle(db)
    ensures Lifecycle(PageMirrored(t, db, e))
  {
    var db1 := Relabelled(t, db, e);
    if !Unchanged(db, e) {
      var v, title := |db.versions|, e.page.frontmatter.title;
      var item := db1.items[e.Slug()].(current := Some(v), status := Live, title := title);
      var row := Version(e.Slug(), MaxNumber(db.versions, e.Slug()) + 1, Published, title, e.page.body);
      AppendKeepsLifecycle(db, e.Slug(), item, row);
      TouchKeepsLifecycle(db.(items := db.items[e.Slug() := item], versions := db.versions + [row]),
                          PageMirrored(t, db, e));
    } else {
      PrepareKeepsLifecycle(t, db, e);
      TouchKeepsLifecycle(db1, PageMirrored(t, db, e));
    }
  }

  /** The chunk texts of every slug after a page was mirrored. */
  lemma PageTexts(t: Tools, db: Db, e: Entry, o: string)
    ensures o != e.Slug() ==> TextsOf(PageMirrored(t, db, e).chunks, o) == TextsOf(db.chunks, o)
    ensures TextsOf(PageMirrored(t, db, e).chunks, e.Slug()) ==
      if Unchanged(db, e) && TextsOf(db.chunks, e.Slug()) != [] then TextsOf(db.chunks, e.Slug())
      else t.chunks(e.page.body)
  {
    var out, texts := PageMirrored(t, db, e), t.chunks(e.page.body);
    if !Unchanged(db, e) || TextsOf(db.chunks, e.Slug()) == [] {
      var v := if Unchanged(db, e) then db.items[e.Slug()].current.value else |db.versions|;
      assert out.chunks == Rechunked(db, e.Slug(), v, texts).chunks;
      TextsOfRechunked(db, e.Slug(), v, texts, o);
      TextsOfRechunked(db, e.Slug(), v, texts, e.Slug());
    }
  }

  lemma PageKeepsOthers(t: Tools, db: Db, e: Entry, o: string)
    requires o != e.Slug() && Lifecycle(db)
    ensures ViewOf(PageMirrored(t, db, e), o) == ViewOf(db, o)
  {
    assert o in db.items ==> PointerOk(db, o);
    PageTexts(t, db, e, o);
    TagsOfRetagged(db.tags, e.Slug(), TagSet(t, e.page.frontmatter.tags), o);
  }

  /** After its turn a page is seen exactly as the bundle has it. */
  lemma PageSyncs(t: Tools, db: Db, e: Entry)
    requires Inv(t, db)
    ensures Synced(t, PageMirrored(t, db, e), e) && Inv(t, PageMirrored(t, db, e))
  {
    var slug, db' := e.Slug(), PageMirrored(t, db, e);
    PageTexts(t, db, e, slug);
    TagsOfRetagged(db.tags, slug, TagSet(t, e.page.frontmatter.tags), slug);
    assert ChunksOk(t, db, slug);
    if Unchanged(db, e) {
      assert PointerOk(db, slug);
    }
    PageKeepsLifecycle(t, db, e);
    forall o
      ensures ChunksOk(t, db', o)
    {
      assert ChunksOk(t, db, o);
      if o != slug {
        PageKeepsOthers(t, db, e, o);
        PageTexts(t, db, e, o);
      }
    }
  }

  /** Mirroring a page that is already synced changes nothing at all. */
  lemma SyncedPageIsFixed(t: Tools, db: Db, e: Entry)
    requires Inv(t, db) && Synced(t, db, e)
    ensures PageMirrored(t, db, e) == db && Unchanged(db, e)
  {
    var slug := e.Slug();
    assert PointerOk(db, slug);
    assert Prepared(t, db, e) == db.items[slug];
    assert db.items[slug := db.items[slug]] == db.items;
    RetaggedFixed(db.tags, slug, TagSet(t, e.page.frontmatter.tags));
    if TextsOf(db.chunks, slug) == [] {
      OthersFixed(db.chunks, slug);
      assert Others(db.chunks, slug) + [] == db.chunks;
    }
  }

  lemma RetaggedFixed(tags: set<(string, string)>, slug: string, want: set<string>)
    requires TagsOf(tags, slug) == want
    ensures Retagged(tags, slug, want) == tags
  {
    forall x
      ensures x in Retagged(tags, slug, want) <==> x in tags
    {
      assert x == (x.0, x.1);
      assert x.0 == slug ==> (x in tags <==> x.1 in TagsOf(tags, slug));
    }
  }

  lemma {:induction false} OthersFixed(chunks: seq<Chunk>, slug: string)
    requires TextsOf(chunks, slug) == []
    ensures Others(chunks, slug) == chunks
  {
    if chunks != [] {
      OthersFixed(chunks[..|chunks| - 1], slug);
      assert chunks == chunks[..|chunks| - 1] + [chunks[|chunks| - 1]];
    }
  }

  // ---------------------------------------------------------------- the first pass

  function FirstPass(t: Tools, db: Db, entries: seq<Entry>): Db {
    if entries == [] then db else PageMirrored(t, FirstPass(t, db, entries[..|entries| - 1]), entries[|entries| - 1])
  }

  /** The number of pages that got a new version. */
  function ChangedCount(t: Tools, db: Db, entries: seq<Entry>): nat {
    if entries == [] then 0
    else
      var front := entries[..|entries| - 1];
      ChangedCount(t, db, front) + if Unchanged(FirstPass(t, db, front), entries[|entries| - 1]) then 0 else 1
  }

  predicate AllSynced(t: Tools, db: Db, entries: seq<Entry>) {
    forall k | 0 <= k < |entries| :: Synced(t, db, entries[k])
  }

  lemma {:induction false} FirstPassSyncs(t: Tools, db: Db, entries: seq<Entry>)
    requires Inv(t, db) && DistinctSlugs(entries)
    ensures Inv(t, FirstPass(t, db, entries)) && AllSynced(t, FirstPass(t, db, entries), entries)
  {
    if entries != [] {
      var front, e := entries[..|entries| - 1], entries[|entries| - 1];
      assert entries == front + [e];
      DistinctFront(front, e);
      FirstPassSyncs(t, db, front);
      OneMoreSynced(t, FirstPass(t, db, front), front, e);
      assert FirstPass(t, db, entries) == PageMirrored(t, FirstPass(t, db, front), e);
    }
  }

  lemma DistinctFront(front: seq<Entry>, e: Entry)
    requires DistinctSlugs(front + [e])
    ensures DistinctSlugs(front)
  {
    assert forall k | 0 <= k < |front| :: (front + [e])[k] == front[k];
  }

  lemma OneMoreSynced(t: Tools, mid: Db, front: seq<Entry>, e: Entry)
    requires Inv(t, mid) && AllSynced(t, mid, front) && DistinctSlugs(front + [e])
    ensures Inv(t, PageMirrored(t, mid, e)) && AllSynced(t, PageMirrored(t, mid, e), front + [e])
  {
    var entries := front + [e];
    PageSyncs(t, mid, e);
    forall k | 0 <= k < |front|
      ensures Synced(t, PageMirrored(t, mid, e), front[k])
    {
      assert Synced(t, mid, front[k]);
      assert entries[k] == front[k] && entries[|front|] == e;
      PageKeepsOthers(t, mid, e, front[k].Slug());
    }
  }

  lemma {:induction false} FirstPassFixed(t: Tools, db: Db, entries: seq<Entry>)
    requires Inv(t, db) && AllSynced(t, db, entries)
    ensures FirstPass(t, db, entries) == db && ChangedCount(t, db, entries) == 0
  {
    if entries != [] {
      FirstPassFixed(t, db, entries[..|entries| - 1]);
      assert Synced(t, db, entries[|entries| - 1]);
      SyncedPageIsFixed(t, db, entries[|entries| - 1]);
    }
  }

  lemma {:induction false} FirstPassKeepsTexts(t: Tools, db: Db, entries: seq<Entry>, o: string)
    requires forall k | 0 <= k < |entries| :: entries[k].Slug() != o
    ensures TextsOf(FirstPass(t, db, entries).chunks, o) == TextsOf(db.chunks, o)
  {
    if entries != [] {
      FirstPassKeepsTexts(t, db, entries[..|entries| - 1], o);
      PageTexts(t, FirstPass(t, db, entries[..|entries| - 1]), entries[|entries| - 1], o);
    }
  }

  lemma {:induction false} FirstPassKeeps(t: Tools, db: Db, entries: seq<Entry>, o: string)
    requires Lifecycle(db) && forall k | 0 <= k < |entries| :: entries[k].Slug() != o
    ensures Lifecycle(FirstPass(t, db, entries)) && ViewOf(FirstPass(t, db, entries), o) == ViewOf(db, o)
    ensures FirstPass(t, db, entries).links == db.links
  {
    if entries != [] {
      FirstPassKeeps(t, db, entries[..|entries| - 1], o);
      PageKeepsLifecycle(t, FirstPass(t, db, entries[..|entries| - 1]), entries[|entries| - 1]);
      PageKeepsOthers(t, FirstPass(t, db, entries[..|entries| - 1]), entries[|entries| - 1], o);
    }
  }

  // ---------------------------------------------------------------- the second pass

  function ExplicitLink(a: string, b: string): WikiLink {
    WikiLink(a, b, "related", 1.0, Explicit)
  }

  /** The pairs the targets of one page ask for: known items other than the page itself. */
  function PairsOf(t: Tools, known: set<string>, e: Entry): set<(string, string)> {
    PairsTo(t, known, e.Slug(), t.targets(e.page.body))
  }

  function PairsTo(t: Tools, known: set<string>, slug: string, targets: seq<string>): set<(string, string)> {
    if targets == [] then {}
    else
      var before, target := PairsTo(t, known, slug, targets[..|targets| - 1]), t.slugify(targets[|targets| - 1]);
      if target in known && target != slug then before + {(slug, target)} else before
  }

  lemma {:induction false} PairsStart(t: Tools, known: set<string>, slug: string, targets: seq<string>)
    ensures forall p | p in PairsTo(t, known, slug, targets) :: p.0 == slug && p.1 in known
  {
    if targets != [] {
      PairsStart(t, known, slug, targets[..|targets| - 1]);
    }
  }

  lemma {:induction false} PairsWithin(t: Tools, known: set<string>, slugs: set<string>, slug: string,
                                       targets: seq<string>, p: (string, string))
    requires slugs <= known && p.1 in slugs
    ensures p in PairsTo(t, known, slug, targets) <==> p in PairsTo(t, slugs, slug, targets)
  {
    if targets != [] {
      PairsWithin(t, known, slugs, slug, targets[..|targets| - 1], p);
    }
  }

  function WantedPairs(t: Tools, known: set<string>, entries: seq<Entry>): set<(string, string)> {
    if entries == [] then {}
    else WantedPairs(t, known, entries[..|entries| - 1]) + PairsOf(t, known, entries[|entries| - 1])
  }

  /** An explicit link with an end among the synced pages: the rows the rebuild deletes. */
  predicate Rebuilt(l: WikiLink, slugs: set<string>) {
    l.origin == Explicit && (l.source in slugs || l.target in slugs)
  }

  function LinkRows(pairs: set<(string, string)>): set<WikiLink> {
    set p | p in pairs :: ExplicitLink(p.0, p.1)
  }

  function Relinked(t: Tools, db: Db, entries: seq<Entry>): Db {
    db.(links := (set l | l in db.links && !Rebuilt(l, SlugsOf(entries)))
               + LinkRows(WantedPairs(t, db.items.Keys, entries)))
  }

  function Mirrored(t: Tools, db: Db, entries: seq<Entry>): Db {
    Relinked(t, FirstPass(t, db, entries), entries)
  }

  lemma {:induction false} WantedPairsStart(t: Tools, known: set<string>, entries: seq<Entry>)
    ensures forall p | p in WantedPairs(t, known, entries) :: p.0 in SlugsOf(entries) && p.1 in known
  {
    if entries != [] {
      var front := entries[..|entries| - 1];
      WantedPairsStart(t, known, front);
      PairsStart(t, known, entries[|entries| - 1].Slug(), t.targets(entries[|entries| - 1].page.body));
      assert forall k | 0 <= k < |front| :: entries[k] == front[k];
      assert SlugsOf(front) <= SlugsOf(entries);
    }
  }

  /** Rebuilding twice gives the links of rebuilding once. */
  lemma RelinkedTwice(t: Tools, db: Db, entries: seq<Entry>)
    ensures Relinked(t, Relinked(t, db, entries), entries) == Relinked(t, db, entries)
  {
    var once := Relinked(t, db, entries);
    WantedPairsStart(t, db.items.Keys, entries);
    var rows := LinkRows(WantedPairs(t, db.items.Keys, entries));
    assert forall l | l in rows :: Rebuilt(l, SlugsOf(entries));
    assert Relinked(t, once, entries).links == once.links;
  }

  lemma LinksDoNotShow(t: Tools, db: Db, links: set<WikiLink>)
    ensures forall slug :: ViewOf(db.(links := links), slug) == ViewOf(db, slug)
    ensures Inv(t, db) ==> Inv(t, db.(links := links))
  {
    var db' := db.(links := links);
    if Inv(t, db) {
      TouchKeepsLifecycle(db, db');
      forall slug
        ensures ChunksOk(t, db', slug)
      {
        assert ChunksOk(t, db, slug);
      }
    }
  }

  lemma MirrorSyncs(t: Tools, db: Db, entries: seq<Entry>)
    requires Inv(t, db) && DistinctSlugs(entries)
    ensures Inv(t, Mirrored(t, db, entries)) && AllSynced(t, Mirrored(t, db, entries), entries)
  {
    var mid := FirstPass(t, db, entries);
    FirstPassSyncs(t, db, entries);
    LinksDoNotShow(t, mid, Mirrored(t, db, entries).links);
    forall k | 0 <= k < |entries|
      ensures Synced(t, Mirrored(t, db, entries), entries[k])
    {
      assert Synced(t, mid, entries[k]);
    }
  }

  // ---------------------------------------------------------------- the promises of the mirror

  /** An immediate second mirror changes nothing: no version, no chunk row, no link. */
  lemma MirrorIdempotent(t: Tools, db: Db, entries: seq<Entry>)
    requires Inv(t, db) && DistinctSlugs(entries)
    ensures var once := Mirrored(t, db, entries);
      Mirrored(t, once, entries) == once && ChangedCount(t, once, entries) == 0
  {
    MirrorSyncs(t, db, entries);
    FirstPassFixed(t, Mirrored(t, db, entries), entries);
    RelinkedTwice(t, FirstPass(t, db, entries), entries);
  }

  /** Links the rebuild has no business with stay: similarity links, and explicit links between items
      that are not in the bundle. Pages outside the bundle keep their rows. */
  lemma MirrorFrame(t: Tools, db: Db, entries: seq<Entry>, l: WikiLink, o: string)
    requires Inv(t, db) && !Rebuilt(l, SlugsOf(entries)) && o !in SlugsOf(entries)
    ensures l in Mirrored(t, db, entries).links <==> l in db.links
    ensures ViewOf(Mirrored(t, db, entries), o) == ViewOf(db, o)
  {
    var mid := FirstPass(t, db, entries);
    FirstPassKeeps(t, db, entries, o);
    WantedPairsStart(t, mid.items.Keys, entries);
    assert forall r | r in LinkRows(WantedPairs(t, mid.items.Keys, entries)) :: Rebuilt(r, SlugsOf(entries));
  }

  /** The explicit links that stay inside a set of pages. */
  function MutualPairs(db: Db, slugs: set<string>): set<(string, string)> {
    set l | l in db.links && l.origin == Explicit && l.source in slugs && l.target in slugs :: (l.source, l.target)
  }

  lemma {:induction false} WantedPairsWithin(t: Tools, known: set<string>, entries: seq<Entry>, slugs: set<string>,
                                             p: (string, string))
    requires slugs <= known && p.1 in slugs
    ensures p in WantedPairs(t, known, entries) <==> p in WantedPairs(t, slugs, entries)
  {
    if entries != [] {
      WantedPairsWithin(t, known, entries[..|entries| - 1], slugs, p);
      var e := entries[|entries| - 1];
      PairsWithin(t, known, slugs, e.Slug(), t.targets(e.page.body), p);
    }
  }

  /** The links among the pages of a bundle are those its bodies ask for. */
  lemma MutualLinksExact(t: Tools, db: Db, entries: seq<Entry>)
    requires Inv(t, db) && DistinctSlugs(entries)
    ensures MutualPairs(Mirrored(t, db, entries), SlugsOf(entries)) == WantedPairs(t, SlugsOf(entries), entries)
  {
    var mid, slugs := FirstPass(t, db, entries), SlugsOf(entries);
    var out := Mirrored(t, db, entries);
    FirstPassSyncs(t, db, entries);
    assert slugs <= mid.items.Keys by {
      forall k | 0 <= k < |entries|
        ensures entries[k].Slug() in mid.items
      {
        assert Synced(t, mid, entries[k]);
      }
    }
    WantedPairsStart(t, slugs, entries);
    WantedPairsStart(t, mid.items.Keys, entries);
    forall p
      ensures p in MutualPairs(out, slugs) <==> p in WantedPairs(t, slugs, entries)
    {
      MutualPairExact(t, mid, entries, p);
    }
  }

  lemma MutualPairExact(t: Tools, mid: Db, entries: seq<Entry>, p: (string, string))
    requires SlugsOf(entries) <= mid.items.Keys
    ensures p in MutualPairs(Relinked(t, mid, entries), SlugsOf(entries))
        <==> p in WantedPairs(t, SlugsOf(entries), entries)
  {
    var slugs, known, out := SlugsOf(entries), mid.items.Keys, Relinked(t, mid, entries);
    WantedPairsStart(t, slugs, entries);
    if p in MutualPairs(out, slugs) {
      var l :|
        l in out.links && l.origin == Explicit && l.source in slugs && l.target in slugs && p == (l.source, l.target);
      var q :| q in WantedPairs(t, known, entries) && l == ExplicitLink(q.0, q.1);
      assert q == p;
      WantedPairsWithin(t, known, entries, slugs, p);
    }
    if p in WantedPairs(t, slugs, entries) {
      WantedPairsWithin(t, known, entries, slugs, p);
      var l := ExplicitLink(p.0, p.1);
      assert l in LinkRows(WantedPairs(t, known, entries));
      assert l in out.links && p == (l.source, l.target);
    }
  }

  lemma EmptyInv(t: Tools)
    ensures Inv(t, EmptyDb)
  {
  }

  /** The incremental mirror refines the full rebuild: whatever the tables held before, the bundle's
      pages and the links among them end up as if mirrored into empty tables. */
  lemma MirrorRefinesRebuild(t: Tools, db: Db, entries: seq<Entry>)
    requires Inv(t, db) && DistinctSlugs(entries)
    ensures var out, rebuilt := Mirrored(t, db, entries), Mirrored(t, EmptyDb, entries);
      && (forall k | 0 <= k < |entries| :: ViewOf(out, entries[k].Slug()) == ViewOf(rebuilt, entries[k].Slug()))
      && MutualPairs(out, SlugsOf(entries)) == MutualPairs(rebuilt, SlugsOf(entries))
  {
    EmptyInv(t);
    MirrorSyncs(t, db, entries);
    MirrorSyncs(t, EmptyDb, entries);
    MutualLinksExact(t, db, entries);
    MutualLinksExact(t, EmptyDb, entries);
    forall k | 0 <= k < |entries|
      ensures ViewOf(Mirrored(t, db, entries), entries[k].Slug())
        == ViewOf(Mirrored(t, EmptyDb, entries), entries[k].Slug())
    {
      assert Synced(t, Mirrored(t, db, entries), entries[k]);
      assert Synced(t, Mirrored(t, EmptyDb, entries), entries[k]);
    }
  }

  // ---------------------------------------------------------------- the whole mirror

  lemma {:induction false} HasTextsIff(chunks: seq<Chunk>, slug: string)
    ensures TextsOf(chunks, slug) != [] <==> slug in (set k | 0 <= k < |chunks| :: chunks[k].item)
  {
    if chunks != [] {
      var front := chunks[..|chunks| - 1];
      HasTextsIff(front, slug);
      assert forall k | 0 <= k < |front| :: front[k] == chunks[k];
    }
  }

  method MirrorBundle(t: Tools, s: Session, entries: seq<Entry>) returns (changed: nat, linkCount: nat)
    requires DistinctSlugs(entries)
    modifies s
    ensures s.View() == Mirrored(t, old(s.View()), entries)
    ensures changed == ChangedCount(t, old(s.View()), entries)
    ensures linkCount == |WantedPairs(t, s.items.Keys, entries)|
  {
    ghost var db := s.View();
    var withChunks := set k | 0 <= k < |s.chunks| :: s.chunks[k].item;
    changed := 0;
    for i := 0 to |entries|
      invariant s.View() == FirstPass(t, db, entries[..i]) && changed == ChangedCount(t, db, entries[..i])
    {
      PassStep(t, db, entries, i);
      var c := MirrorPage(t, s, entries[i], withChunks);
      changed := changed + if c then 1 else 0;
    }
    assert entries[..|entries|] == entries;
    FirstPassItems(t, db, entries);
    linkCount := RebuildLinks(t, s, entries);
  }

  lemma PassStep(t: Tools, db: Db, entries: seq<Entry>, i: nat)
    requires DistinctSlugs(entries) && i < |entries|
    ensures var before := FirstPass(t, db, entries[..i]);
      && FirstPass(t, db, entries[..i + 1]) == PageMirrored(t, before, entries[i])
      && ChangedCount(t, db, entries[..i + 1])
         == ChangedCount(t, db, entries[..i]) + (if Unchanged(before, entries[i]) then 0 else 1)
      && (entries[i].Slug() in (set k | 0 <= k < |db.chunks| :: db.chunks[k].item)
          <==> TextsOf(before.chunks, entries[i].Slug()) != [])
  {
    assert entries[..i + 1][..i] == entries[..i];
    FirstPassKeepsTexts(t, db, entries[..i], entries[i].Slug());
    HasTextsIff(db.chunks, entries[i].Slug());
  }

  lemma PageItems(t: Tools, db: Db, e: Entry)
    ensures PageMirrored(t, db, e).items.Keys == db.items.Keys + {e.Slug()}
  {
  }

  lemma {:induction false} FirstPassItems(t: Tools, db: Db, entries: seq<Entry>)
    ensures FirstPass(t, db, entries).items.Keys == db.items.Keys + SlugsOf(entries)
  {
    if entries != [] {
      var front, e := entries[..|entries| - 1], entries[|entries| - 1];
      assert entries == front + [e];
      FirstPassItems(t, db, front);
      SlugsOfMore(front, e);
      MoreItems(t, db.items.Keys, FirstPass(t, db, front), front, e);
    }
  }

  lemma MoreItems(t: Tools, items: set<string>, mid: Db, front: seq<Entry>, e: Entry)
    requires mid.items.Keys == items + SlugsOf(front)
    ensures PageMirrored(t, mid, e).items.Keys == items + (SlugsOf(front) + {e.Slug()})
  {
    PageItems(t, mid, e);
    SetAssoc(items, SlugsOf(front), {e.Slug()});
  }

  lemma SlugsOfMore(front: seq<Entry>, e: Entry)
    ensures SlugsOf(front + [e]) == SlugsOf(front) + {e.Slug()}
  {
    var all := front + [e];
    assert forall k | 0 <= k < |front| :: all[k] == front[k];
    assert all[|front|] == e;
  }

  /** The slugs targeted by any page of the bundle. */
  method CollectTargets(t: Tools, entries: seq<Entry>) returns (targets: set<string>)
    ensures forall k | 0 <= k < |entries| :: TargetsIn(t, entries[k], targets)
  {
    targets := {};
    for i := 0 to |entries|
      invariant forall k | 0 <= k < i :: TargetsIn(t, entries[k], targets)
    {
      targets := targets + set x | x in Slugs(t, t.targets(entries[i].page.body));
      TargetsAdded(t, entries[i], targets);
    }
  }

  /** The second pass. Targets outside the bundle are looked up in one go. */
  method RebuildLinks(t: Tools, s: Session, entries: seq<Entry>) returns (linkCount: nat)
    requires SlugsOf(entries) <= s.items.Keys
    modifies s`links
    ensures s.links == Relinked(t, old(s.View()), entries).links
    ensures linkCount == |WantedPairs(t, s.items.Keys, entries)|
  {
    var synced := SlugsOf(entries);
    s.links := set l | l in s.links && !(l.origin == Explicit && (l.source in synced || l.target in synced));
    var targets := CollectTargets(t, entries);
    var missing := targets - synced;
    var known := synced + (set x | x in missing && x in s.items);
    KnownSuffices(t, s.items.Keys, known, targets, entries);
    linkCount := LinkPages(t, s, entries, known);
  }

  method LinkPages(t: Tools, s: Session, entries: seq<Entry>, known: set<string>) returns (linkCount: nat)
    modifies s`links
    ensures s.links == old(s.links) + LinkRows(WantedPairs(t, known, entries))
    ensures linkCount == |WantedPairs(t, known, entries)|
  {
    var inserted: set<(string, string)> := {};
    linkCount := 0;
    for i := 0 to |entries|
      invariant inserted == WantedPairs(t, known, entries[..i]) && linkCount == |inserted|
      invariant AddsRows(s.links, old(s.links), inserted)
    {
      assert entries[..i + 1][..i] == entries[..i];
      inserted, linkCount := LinkPage(t, s, entries[i], known, old(s.links), inserted, linkCount);
    }
    assert entries[..|entries|] == entries;
  }

  /** The links of one page, pairs already inserted left out. */
  method LinkPage(t: Tools, s: Session, e: Entry, known: set<string>, ghost kept: set<WikiLink>, done: set<(string,
                  string)>, count: nat)
    returns (inserted: set<(string, string)>, linkCount: nat)
    requires AddsRows(s.links, kept, done) && count == |done|
    modifies s`links
    ensures inserted == done + PairsOf(t, known, e) && linkCount == |inserted|
    ensures AddsRows(s.links, kept, inserted)
  {
    var names := t.targets(e.page.body);
    inserted, linkCount := done, count;
    for j := 0 to |names|
      invariant inserted == PairsUpTo(t, known, e.Slug(), names, j, done) && linkCount == |inserted|
      invariant AddsRows(s.links, kept, inserted)
    {
      var target := t.slugify(names[j]);
      LinkStep(t, known, e.Slug(), names, j, done, s.links, kept, inserted);
      if target in known && target != e.Slug() && (e.Slug(), target) !in inserted {
        inserted := inserted + {(e.Slug(), target)};
        s.links := s.links + {ExplicitLink(e.Slug(), target)};
        linkCount := linkCount + 1;
      }
    }
    assert names[..|names|] == names;
  }

  /** One target more: a row more if its pair is wanted and new. */
  lemma LinkStep(t: Tools, known: set<string>, slug: string, names: seq<string>, j: nat, done: set<(string, string)>,
                 links: set<WikiLink>, kept: set<WikiLink>, inserted: set<(string, string)>)
    requires j < |names| && inserted == PairsUpTo(t, known, slug, names, j, done) && AddsRows(links, kept, inserted)
    ensures var p, more := (slug, t.slugify(names[j])), PairsUpTo(t, known, slug, names, j + 1, done);
      if p.1 in known && p.1 != slug && p !in inserted
      then more == inserted + {p} && AddsRows(links + {ExplicitLink(p.0, p.1)}, kept, more) else more == inserted
  {
    PairsStep(t, known, slug, names, j, done);
    LinkRowsMore(links, kept, inserted, (slug, t.slugify(names[j])));
  }

  function PairsUpTo(t: Tools, known: set<string>, slug: string, names: seq<string>, j: nat,
                     done: set<(string, string)>): set<(string, string)>
    requires j <= |names|
  {
    done + PairsTo(t, known, slug, names[..j])
  }

  predicate AddsRows(links: set<WikiLink>, kept: set<WikiLink>, pairs: set<(string, string)>) {
    links == kept + LinkRows(pairs)
  }

  lemma LinkRowsMore(links: set<WikiLink>, kept: set<WikiLink>, pairs: set<(string, string)>, p: (string, string))
    requires AddsRows(links, kept, pairs)
    ensures AddsRows(links + {ExplicitLink(p.0, p.1)}, kept, pairs + {p})
  {
    assert LinkRows(pairs + {p}) == LinkRows(pairs) + {ExplicitLink(p.0, p.1)};
    SetAssoc(kept, LinkRows(pairs), {ExplicitLink(p.0, p.1)});
  }

  predicate TargetsIn(t: Tools, e: Entry, targets: set<string>) {
    forall j | 0 <= j < |t.targets(e.page.body)| :: t.slugify(t.targets(e.page.body)[j]) in targets
  }

  lemma TargetsAdded(t: Tools, e: Entry, targets: set<string>)
    requires forall x | x in Slugs(t, t.targets(e.page.body)) :: x in targets
    ensures TargetsIn(t, e, targets)
  {
    forall j | 0 <= j < |t.targets(e.page.body)|
      ensures t.slugify(t.targets(e.page.body)[j]) in targets
    {
      assert Slugs(t, t.targets(e.page.body))[j] in targets;
    }
  }

  lemma PairsStep(t: Tools, known: set<string>, slug: string, names: seq<string>, j: nat, done: set<(string, string)>)
    requires j < |names|
    ensures var before, l := PairsUpTo(t, known, slug, names, j, done), t.slugify(names[j]);
      PairsUpTo(t, known, slug, names, j + 1, done) == if l in known && l != slug then before + {(slug, l)} else before
  {
    assert names[..j + 1][..j] == names[..j];
    SetAssoc(done, PairsTo(t, known, slug, names[..j]), {(slug, t.slugify(names[j]))});
  }

  lemma {:induction false} PairsSame(t: Tools, items: set<string>, known: set<string>, slug: string, names: seq<string>)
    requires forall j | 0 <= j < |names| :: t.slugify(names[j]) in known <==> t.slugify(names[j]) in items
    ensures PairsTo(t, known, slug, names) == PairsTo(t, items, slug, names)
  {
    if names != [] {
      PairsSame(t, items, known, slug, names[..|names| - 1]);
    }
  }

  /** Looking up just the targets is as good as looking up every item. */
  lemma {:induction false} KnownSuffices(t: Tools, items: set<string>, known: set<string>, targets: set<string>,
                                         entries: seq<Entry>)
    requires forall k | 0 <= k < |entries| :: TargetsIn(t, entries[k], targets)
    requires known <= items && forall x | x in targets && x in items :: x in known
    ensures WantedPairs(t, known, entries) == WantedPairs(t, items, entries)
  {
    if entries != [] {
      var e := entries[|entries| - 1];
      KnownSuffices(t, items, known, targets, entries[..|entries| - 1]);
      assert TargetsIn(t, e, targets);
      PairsSame(t, items, known, e.Slug(), t.targets(e.page.body));
    }
  }

  // ---------------------------------------------------------------- the link table's unique key

  predicate SameKey(a: WikiLink, b: WikiLink) {
    a.source == b.source && a.target == b.target && a.relation == b.relation && a.origin == b.origin
  }

  ghost predicate LinkKeysUnique(links: set<WikiLink>) {
    forall a, b | a in links && b in links && SameKey(a, b) :: a == b
  }

  /** The rebuild never inserts a row whose key is taken. */
  lemma RelinkKeepsKeysUnique(t: Tools, db: Db, entries: seq<Entry>)
    requires LinkKeysUnique(db.links)
    ensures LinkKeysUnique(Relinked(t, db, entries).links)
  {
    WantedPairsStart(t, db.items.Keys, entries);
    var rows := LinkRows(WantedPairs(t, db.items.Keys, entries));
    assert forall r | r in rows :: Rebuilt(r, SlugsOf(entries)) && r == ExplicitLink(r.source, r.target);
  }
}
