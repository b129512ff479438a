/** The ingest of one source: a slow phase without the lock that plans and composes pages from what it
    reads, and a short phase under the lock that merges metadata and writes. Many ingests interleave. */
module Ingest {
  import opened Strings
  import opened Okf
  import opened Bundle
  import opened Resolve
  import opened Relate
  import opened Links

  // ---------------------------------------------------------------- phase A

  function KindName(kind: PageType): string {
    match kind
    case Source => "source"
    case Entity => "entity"
    case Concept => "concept"
    case Analysis => "analysis"
  }

  /** What a body is made from: the model's prose, the slugs its links may have, the planned links. */
  datatype Draft = Draft(raw: string, valid: set<string>, links: seq<string>)

  datatype Prepared = Prepared(kind: PageType, page: Page, draft: Draft) {
    function Key(): PageKey { PageKey(kind, page.slug) }
  }

  /** How names become slugs and drafts become bodies. */
  datatype Rules = Rules(slugify: string -> string, render: Draft -> string)

  /** The rules in force: inline links to unknown slugs are stripped, the planned links are appended. */
  function RulesFor(slugify: string -> string): Rules {
    Rules(slugify, (d: Draft) => WithRelated(Sanitize(slugify, d.valid, d.raw), d.links))
  }

  function NewFrontmatter(x: Extraction, op: PageOp, source: string, resource: Option<string>,
                          today: string): Frontmatter {
    Frontmatter(KindName(op.kind), op.title, op.description, if op.kind == Source then resource else None,
                x.domain, x.tags,
                op.aliases, None, Some(today), Some(today),
                if op.kind == Source then [] else ["[[" + source + "]]"], map[])
  }

  function PreparedFor(r: Rules, x: Extraction, op: PageOp, source: string, raw: string, valid: set<string>,
                       resource: Option<string>, today: string): Prepared {
    var d := Draft(raw, valid, op.links);
    Prepared(op.kind, Page(op.slug, NewFrontmatter(x, op, source, resource, today), r.render(d)), d)
  }

  /** One prepared page per operation, in order. */
  predicate IsComposed(r: Rules, x: Extraction, ops: seq<PageOp>, source: string, valid: set<string>,
                       resource: Option<string>, today: string, raws: seq<string>, prepared: seq<Prepared>) {
    |raws| == |ops| == |prepared| && forall k | 0 <= k < |ops| ::
      prepared[k] == PreparedFor(r, x, ops[k], source, raws[k], valid, resource, today)
  }

  /** Slugs that will exist after this ingest. */
  function ValidSlugs(ops: seq<PageOp>, pages: Pages): set<string> {
    Resolve.SlugsOf(ops) + AllSlugs(pages)
  }

  /** The model's prose for each operation; it sees the operation and the existing body, if any. */
  function Proses(model: (PageOp, Option<string>) -> string, ops: seq<PageOp>, pages: Pages): (raws: seq<string>)
    ensures |raws| == |ops|
  {
    seq(|ops|, k requires 0 <= k < |ops| => model(ops[k], ExistingBody(pages, ops[k].Key())))
  }

  lemma ComposedMore(r: Rules, x: Extraction, ops: seq<PageOp>, source: string, valid: set<string>,
                     resource: Option<string>, today: string, raws: seq<string>, prepared: seq<Prepared>, p: Prepared)
    requires |prepared| < |ops| == |raws|
    requires IsComposed(r, x, ops[..|prepared|], source, valid, resource, today, raws[..|prepared|], prepared)
    requires p == PreparedFor(r, x, ops[|prepared|], source, raws[|prepared|], valid, resource, today)
    ensures IsComposed(r, x, ops[..|prepared| + 1], source, valid, resource, today,
                       raws[..|prepared| + 1], prepared + [p])
  {
  }

  method ComposeAll(bundle: OkfBundle, r: Rules, x: Extraction, ops: seq<PageOp>, source: string,
                    model: (PageOp, Option<string>) -> string, resource: Option<string>, today: string)
    returns (prepared: seq<Prepared>)
    ensures IsComposed(r, x, ops, source, ValidSlugs(ops, bundle.pages), resource, today,
                       Proses(model, ops, bundle.pages), prepared)
  {
    var valid := ValidSlugs(ops, bundle.pages);
    ghost var raws := Proses(model, ops, bundle.pages);
    prepared := [];
    for k := 0 to |ops|
      invariant IsComposed(r, x, ops[..k], source, valid, resource, today, raws[..k], prepared)
    {
      var p := ComposeOne(bundle, r, x, ops[k], source, valid, model, resource, today);
      ComposedMore(r, x, ops, source, valid, resource, today, raws, prepared, p);
      prepared := prepared + [p];
    }
    assert ops[..|ops|] == ops && raws[..|ops|] == raws;
  }

  method ComposeOne(bundle: OkfBundle, r: Rules, x: Extraction, op: PageOp, source: string, valid: set<string>,
                    model: (PageOp, Option<string>) -> string, resource: Option<string>, today: string)
    returns (p: Prepared)
    ensures p == PreparedFor(r, x, op, source, model(op, ExistingBody(bundle.pages, op.Key())), valid, resource, today)
  {
    var existing := bundle.ReadPage(op.kind, op.slug);
    var raw := model(op, if existing.Some? then Some(existing.value.body) else None);
    p := PreparedFor(r, x, op, source, raw, valid, resource, today);
  }

  function ExistingBody(pages: Pages, key: PageKey): Option<string> {
    if key in pages then Some(pages[key].body) else None
  }

  // ---------------------------------------------------------------- phase B

  /** A missing or empty value gives way to the next one. */
  function Or(a: Option<string>, b: Option<string>): Option<string> {
    if a.Some? && a.value != "" then a else b
  }

  /** An update keeps the earliest creation date and the canonical title and adds to the aliases. */
  function MergeExisting(page: Page, existing: Page, today: string): Page {
    var was := existing.frontmatter;
    page.(frontmatter := page.frontmatter.(
      created := Or(Or(was.created, was.timestamp), Some(today)), updated := Some(today),
      aliases := Deduped(was.aliases + page.frontmatter.aliases),
      title := if was.title != "" then was.title else page.frontmatter.title))
  }

  function Stored(page: Page): Page {
    page.(body := Strip(page.body))
  }

  /** The page as it is stored, merged with the one that is there. */
  function Written(b: Pages, p: Prepared, today: string): Page {
    Stored(if p.Key() in b then MergeExisting(p.page, b[p.Key()], today) else p.page)
  }

  function WriteOne(b: Pages, p: Prepared, today: string): Pages {
    b[p.Key() := Written(b, p, today)]
  }

  function WriteAll(b: Pages, prepared: seq<Prepared>, today: string): Pages {
    if prepared == [] then b
    else WriteOne(WriteAll(b, prepared[..|prepared| - 1], today), prepared[|prepared| - 1], today)
  }

  /** The keys of the pages that were not there. */
  function NewKeys(b: Pages, prepared: seq<Prepared>, today: string): seq<PageKey> {
    if prepared == [] then []
    else
      var before, p := NewKeys(b, prepared[..|prepared| - 1], today), prepared[|prepared| - 1];
      if p.Key() in WriteAll(b, prepared[..|prepared| - 1], today) then before else before + [p.Key()]
  }

  /** The keys of the pages that were. */
  function OldKeys(b: Pages, prepared: seq<Prepared>, today: string): seq<PageKey> {
    if prepared == [] then []
    else
      var before, p := OldKeys(b, prepared[..|prepared| - 1], today), prepared[|prepared| - 1];
      if p.Key() in WriteAll(b, prepared[..|prepared| - 1], today) then before + [p.Key()] else before
  }

  function Slugs(keys: seq<PageKey>): seq<string> {
    seq(|keys|, i requires 0 <= i < |keys| => keys[i].slug)
  }

  lemma SlugsMore(keys: seq<PageKey>, key: PageKey)
    ensures Slugs(keys + [key]) == Slugs(keys) + [key.slug]
  {
  }

  lemma WriteStep(b: Pages, prepared: seq<Prepared>, today: string, k: nat)
    requires k < |prepared|
    ensures var before, p := WriteAll(b, prepared[..k], today), prepared[k];
      var added, kept := NewKeys(b, prepared[..k], today), OldKeys(b, prepared[..k], today);
      && WriteAll(b, prepared[..k + 1], today) == WriteOne(before, p, today)
      && NewKeys(b, prepared[..k + 1], today) == (if p.Key() in before then added else added + [p.Key()])
      && OldKeys(b, prepared[..k + 1], today) == if p.Key() in before then kept + [p.Key()] else kept
  {
    assert prepared[..k + 1][..k] == prepared[..k];
  }

  method WritePrepared(bundle: OkfBundle, prepared: seq<Prepared>, today: string)
    returns (created: seq<string>, updated: seq<string>)
    modifies bundle
    ensures bundle.pages == WriteAll(old(bundle.pages), prepared, today)
    ensures created == Slugs(NewKeys(old(bundle.pages), prepared, today)) && |created| + |updated| == |prepared|
    ensures updated == Slugs(OldKeys(old(bundle.pages), prepared, today))
  {
    created, updated := [], [];
    ghost var b := bundle.pages;
    for k := 0 to |prepared|
      invariant bundle.pages == WriteAll(b, prepared[..k], today)
      invariant created == Slugs(NewKeys(b, prepared[..k], today)) && |created| + |updated| == k
      invariant updated == Slugs(OldKeys(b, prepared[..k], today))
    {
      var p := prepared[k];
      WriteStep(b, prepared, today, k);
      SlugsMore(NewKeys(b, prepared[..k], today), p.Key());
      SlugsMore(OldKeys(b, prepared[..k], today), p.Key());
      var existing := bundle.ReadPage(p.kind, p.page.slug);
      if existing.Some? {
        bundle.WritePage(p.kind, MergeExisting(p.page, existing.value, today));
        updated := updated + [p.page.slug];
      } else {
        bundle.WritePage(p.kind, p.page);
        created := created + [p.page.slug];
      }
    }
    assert prepared[..|prepared|] == prepared;
  }

  // ---------------------------------------------------------------- what a write keeps

  /** What a page never loses: its creation date, its title, its aliases in their order. */
  predicate Endures(p: Page, q: Page) {
    && (Or(p.frontmatter.created, None).Some? ==> q.frontmatter.created == p.frontmatter.created)
    && (p.frontmatter.title != "" ==> q.frontmatter.title == p.frontmatter.title)
    && (Distinct(p.frontmatter.aliases) ==>
         p.frontmatter.aliases <= q.frontmatter.aliases && Distinct(q.frontmatter.aliases))
  }

  /** Pages are never removed, and every page endures. */
  predicate Grows(b: Pages, b': Pages) {
    forall k | k in b :: k in b' && Endures(b[k], b'[k])
  }

  lemma MergedEndures(page: Page, existing: Page, today: string)
    ensures Endures(existing, Stored(MergeExisting(page, existing, today)))
    ensures var merged := MergeExisting(page, existing, today);
      && merged.body == page.body && merged.slug == page.slug && merged.frontmatter.updated == Some(today)
      && forall a ::
           a in merged.frontmatter.aliases <==> a in existing.frontmatter.aliases || a in page.frontmatter.aliases
  {
    var was := existing.frontmatter.aliases;
    DedupedExtends(was, page.frontmatter.aliases);
    if Distinct(was) {
      DedupedOfDistinct(was);
    }
  }

  /** The keys reported as new are those of the pages that are there now and were not before. */
  lemma {:induction false} NewKeysExact(b: Pages, prepared: seq<Prepared>, today: string, key: PageKey)
    ensures key in NewKeys(b, prepared, today) <==> key in WriteAll(b, prepared, today) && key !in b
    ensures key in b ==> key in WriteAll(b, prepared, today)
  {
    if prepared != [] {
      NewKeysExact(b, prepared[..|prepared| - 1], today, key);
    }
  }

  lemma GrowsTransitive(a: Pages, b: Pages, c: Pages)
    requires Grows(a, b) && Grows(b, c)
    ensures Grows(a, c)
  {
    forall k | k in a
      ensures k in c && Endures(a[k], c[k])
    {
      assert Endures(a[k], b[k]) && Endures(b[k], c[k]);
    }
  }

  lemma WriteOneGrows(b: Pages, p: Prepared, today: string)
    ensures Grows(b, WriteOne(b, p, today)) && AllSlugs(WriteOne(b, p, today)) == AllSlugs(b) + {p.page.slug}
  {
    if p.Key() in b {
      MergedEndures(p.page, b[p.Key()], today);
    }
    var b' := WriteOne(b, p, today);
    assert p.Key() in b';
    forall s
      ensures s in AllSlugs(b') <==> s in AllSlugs(b) || s == p.page.slug
    {
      if s in AllSlugs(b') {
        var k :| k in b' && k.slug == s;
        assert k in b || k == p.Key();
      }
      if s in AllSlugs(b) {
        var k :| k in b && k.slug == s;
        assert k in b';
      }
    }
  }

  lemma {:induction false} WriteAllGrows(b: Pages, prepared: seq<Prepared>, today: string)
    ensures Grows(b, WriteAll(b, prepared, today))
  {
    if prepared != [] {
      var front := prepared[..|prepared| - 1];
      WriteAllGrows(b, front, today);
      WriteOneGrows(WriteAll(b, front, today), prepared[|prepared| - 1], today);
      GrowsTransitive(b, WriteAll(b, front, today), WriteAll(b, prepared, today));
    }
  }

  // ---------------------------------------------------------------- one ingest on its own

  /** The model's answer to the relate prompt. */
  datatype Answer = Answer(related: seq<Json>, aliases: Option<map<string, Json>>)

  /** As many other slugs as the model is shown. */
  predicate ShownOf(b: Pages, source: string, shown: set<string>) {
    var others := AllSlugs(b) - {source};
    shown <= others && |shown| == if |others| <= MaxCatalog then |others| else MaxCatalog
  }

  /** Without an answer there are no hints; else they are what it says of the pages shown. */
  ghost predicate Answered(b: Pages, source: string, answer: Option<Answer>, hints: Hints) {
    if answer.None? then hints == NoHints
    else exists shown ::
      ShownOf(b, source, shown) && HintsExact(shown, answer.value.related, answer.value.aliases, hints)
  }

  lemma AnsweredFrom(b: Pages, source: string, answer: Option<Answer>, hints: Hints)
    requires Answered(b, source, answer, hints)
    ensures HintsFrom(b, source, hints)
  {
    if answer.Some? {
      var shown :| ShownOf(b, source, shown) && HintsExact(shown, answer.value.related, answer.value.aliases, hints);
      forall name | name in hints.aliases
        ensures hints.aliases[name] in shown
      {
        assert answer.value.aliases.value[name] == Text(hints.aliases[name]);
      }
    }
  }

  lemma CatalogShown(b: Pages, source: string, catalog: seq<string>)
    requires Distinct(catalog) && SetOf(catalog) == AllSlugs(b) - {source}
    ensures ShownOf(b, source, SetOf(if |catalog| <= MaxCatalog then catalog else catalog[..MaxCatalog]))
  {
    SetOfSize(catalog);
    SetOfSize(if |catalog| <= MaxCatalog then catalog else catalog[..MaxCatalog]);
  }

  /** Linking is additive: without an answer there are no hints. */
  method RelateSource(bundle: OkfBundle, source: string, answer: Option<Answer>) returns (hints: Hints)
    ensures Answered(bundle.pages, source, answer, hints) && HintsFrom(bundle.pages, source, hints)
  {
    var catalog := ExistingCatalog(bundle, source);
    if answer.None? {
      return NoHints;
    }
    hints := RelateExisting(catalog, MaxCatalog, answer.value.related, answer.value.aliases);
    CatalogShown(bundle.pages, source, catalog);
    AnsweredFrom(bundle.pages, source, answer, hints);
  }

  function SourceSlug(slugify: string -> string, given: Option<string>, x: Extraction): string {
    if given.Some? && given.value != "" then given.value else if x.slug != "" then x.slug else slugify(x.title)
  }

  // ---------------------------------------------------------------- the pages an ingest leaves

  /** What every page of a plan says, written or merged. */
  predicate Says(x: Extraction, op: PageOp, source: string, resource: Option<string>, today: string, fm: Frontmatter) {
    && (op.kind == Source ==> fm.kind == "source") && (op.kind == Entity ==> fm.kind == "entity")
    && (op.kind == Concept ==> fm.kind == "concept") && (op.kind == Analysis ==> fm.kind == "analysis")
    && fm.description == op.description && fm.tags == x.tags && fm.domain == x.domain
    && (op.kind == Source ==> fm.sources == [] && fm.resource == resource)
    && (op.kind != Source ==> fm.sources == ["[[" + source + "]]"] && fm.resource == None)
    && fm.updated == Some(today) && fm.timestamp == None && fm.extra == map[]
  }

  predicate SaysFirst(op: PageOp, today: string, fm: Frontmatter) {
    fm.title == op.title && fm.created == Some(today) && fm.aliases == op.aliases
  }

  /** What a page keeps of the one it replaces: a title, the older of two dates, the aliases in front. */
  ghost predicate Carries(was: Frontmatter, op: PageOp, today: string, fm: Frontmatter) {
    && fm.title == (if was.title == "" then op.title else was.title)
    && fm.created == (if was.created.Some? && was.created.value != "" then was.created
                      else if was.timestamp.Some? && was.timestamp.value != "" then was.timestamp else Some(today))
    && Distinct(fm.aliases) && (forall a :: a in fm.aliases <==> a in was.aliases || a in op.aliases)
    && forall i, j | 0 <= i < j < |fm.aliases| :: ComesFirst(was.aliases + op.aliases, fm.aliases[i], fm.aliases[j])
  }

  /** The page of an operation as an ingest of `b` leaves it: its body is the model's prose, made from the
      body that was there, without links to other pages than these, and the planned links. */
  ghost predicate LeftAs(slugify: string -> string, b: Pages, x: Extraction, op: PageOp, slugs: set<string>,
                         source: string, model: (PageOp, Option<string>) -> string, resource: Option<string>,
                         today: string, page: Page) {
    var key := PageKey(op.kind, op.slug);
    && page.slug == op.slug && Says(x, op, source, resource, today, page.frontmatter)
    && (if key in b then Carries(b[key].frontmatter, op, today, page.frontmatter)
        else SaysFirst(op, today, page.frontmatter))
    && var prose := model(op, if key in b then Some(b[key].body) else None);
    page.body == Strip(WithRelated(Sanitize(slugify, slugs, prose), op.links))
  }

  /** Page `k` of the plan is left so, with links to pages that exist or are planned. */
  ghost predicate Leaves(slugify: string -> string, b: Pages, b': Pages, x: Extraction, ops: seq<PageOp>, k: nat,
                         source: string, model: (PageOp, Option<string>) -> string, resource: Option<string>,
                         today: string)
    requires k < |ops|
  {
    var key, slugs := PageKey(ops[k].kind, ops[k].slug), AllSlugs(b) + (set j | 0 <= j < |ops| :: ops[j].slug);
    key in b' && LeftAs(slugify, b, x, ops[k], slugs, source, model, resource, today, b'[key])
  }

  /** Nothing but the pages of the plan is touched. */
  predicate OthersStay(b: Pages, b': Pages, ops: seq<PageOp>) {
    && (forall key | key in b' :: key in b || exists k | 0 <= k < |ops| :: PageKey(ops[k].kind, ops[k].slug) == key)
    && forall key | key in b && (forall k | 0 <= k < |ops| :: PageKey(ops[k].kind, ops[k].slug) != key) ::
         key in b' && b'[key] == b[key]
  }

  /** The slugs reported as created are those of the plan's pages that were not there, those reported as
      updated the others. */
  predicate Reports(b: Pages, ops: seq<PageOp>, created: seq<string>, updated: seq<string>) {
    && |created| + |updated| == |ops|
    && forall k | 0 <= k < |ops| ::
         && (ops[k].slug in created <==> PageKey(ops[k].kind, ops[k].slug) !in b)
         && (ops[k].slug in updated <==> PageKey(ops[k].kind, ops[k].slug) in b)
  }

  predicate DistinctKeys(prepared: seq<Prepared>) {
    forall i, j | 0 <= i < j < |prepared| :: prepared[i].Key() != prepared[j].Key()
  }

  lemma {:induction false} WriteAllFrame(b: Pages, prepared: seq<Prepared>, today: string, key: PageKey)
    requires forall k | 0 <= k < |prepared| :: prepared[k].Key() != key
    ensures key in WriteAll(b, prepared, today) <==> key in b
    ensures key in b ==> WriteAll(b, prepared, today)[key] == b[key]
  {
    if prepared != [] {
      WriteAllFrame(b, prepared[..|prepared| - 1], today, key);
    }
  }

  lemma WrittenAlike(b: Pages, b': Pages, p: Prepared, today: string)
    requires p.Key() in b <==> p.Key() in b'
    requires p.Key() in b ==> b'[p.Key()] == b[p.Key()]
    ensures Written(b', p, today) == Written(b, p, today)
  {
  }

  /** A page written once is what it was composed as, merged with the page that was there. */
  lemma {:induction false} WrittenOnce(b: Pages, prepared: seq<Prepared>, today: string, k: nat)
    requires DistinctKeys(prepared) && k < |prepared|
    ensures prepared[k].Key() in WriteAll(b, prepared, today)
    ensures WriteAll(b, prepared, today)[prepared[k].Key()] == Written(b, prepared[k], today)
  {
    var front, last := prepared[..|prepared| - 1], prepared[|prepared| - 1];
    if k < |front| {
      WrittenOnce(b, front, today, k);
      assert last.Key() != prepared[k].Key();
    } else {
      WriteAllFrame(b, front, today, last.Key());
      WrittenAlike(b, WriteAll(b, front, today), last, today);
    }
  }

  lemma NewSays(x: Extraction, op: PageOp, source: string, resource: Option<string>, today: string)
    ensures var fm := NewFrontmatter(x, op, source, resource, today);
      Says(x, op, source, resource, today, fm) && SaysFirst(op, today, fm)
  {
  }

  lemma MergedSays(x: Extraction, op: PageOp, source: string, resource: Option<string>, today: string, page: Page,
                   existing: Page)
    requires Says(x, op, source, resource, today, page.frontmatter) && SaysFirst(op, today, page.frontmatter)
    ensures var fm := MergeExisting(page, existing, today).frontmatter;
      Says(x, op, source, resource, today, fm) && Carries(existing.frontmatter, op, today, fm)
  {
    var all := existing.frontmatter.aliases + op.aliases;
    forall i, j | 0 <= i < j < |Deduped(all)|
      ensures ComesFirst(all, Deduped(all)[i], Deduped(all)[j])
    {
      DedupedOrder(all, i, j);
    }
  }

  lemma ComposedSays(slugify: string -> string, b: Pages, x: Extraction, op: PageOp, valid: set<string>, source: string,
                     model: (PageOp, Option<string>) -> string, resource: Option<string>, today: string)
    ensures var raw := model(op, ExistingBody(b, op.Key()));
      var p := PreparedFor(RulesFor(slugify), x, op, source, raw, valid, resource, today);
      LeftAs(slugify, b, x, op, valid, source, model, resource, today,
             Stored(if op.Key() in b then MergeExisting(p.page, b[op.Key()], today) else p.page))
  {
    var raw := model(op, ExistingBody(b, op.Key()));
    var p := PreparedFor(RulesFor(slugify), x, op, source, raw, valid, resource, today);
    NewSays(x, op, source, resource, today);
    if op.Key() in b {
      MergedSays(x, op, source, resource, today, p.page, b[op.Key()]);
    }
  }

  lemma {:induction false} SplitKeys(b: Pages, prepared: seq<Prepared>, today: string, key: PageKey)
    requires DistinctKeys(prepared)
    ensures key in OldKeys(b, prepared, today) <==>
      key in b && exists k | 0 <= k < |prepared| :: prepared[k].Key() == key
  {
    if prepared != [] {
      var front, last := prepared[..|prepared| - 1], prepared[|prepared| - 1];
      SplitKeys(b, front, today, key);
      WriteAllFrame(b, front, today, last.Key());
      assert forall k | 0 <= k < |front| :: prepared[k] == front[k];
    }
  }

  lemma {:induction false} SplitCount(b: Pages, prepared: seq<Prepared>, today: string)
    ensures |NewKeys(b, prepared, today)| + |OldKeys(b, prepared, today)| == |prepared|
  {
    if prepared != [] {
      SplitCount(b, prepared[..|prepared| - 1], today);
    }
  }

  lemma SlugReported(keys: seq<PageKey>, ops: seq<PageOp>, k: nat)
    requires k < |ops| && Resolve.DistinctSlugs(ops)
    requires forall key | key in keys :: exists j | 0 <= j < |ops| :: ops[j].Key() == key
    ensures ops[k].slug in Slugs(keys) <==> ops[k].Key() in keys
  {
    if ops[k].slug in Slugs(keys) {
      var i :| 0 <= i < |keys| && keys[i].slug == ops[k].slug;
      assert keys[i] in keys;
      var j :| 0 <= j < |ops| && ops[j].Key() == keys[i];
      assert j == k;
    }
    if ops[k].Key() in keys {
      var i :| 0 <= i < |keys| && keys[i] == ops[k].Key();
      assert Slugs(keys)[i] == ops[k].slug;
    }
  }

  lemma ComposedKeys(r: Rules, x: Extraction, ops: seq<PageOp>, source: string, valid: set<string>,
                     resource: Option<string>, today: string, raws: seq<string>, prepared: seq<Prepared>)
    requires IsComposed(r, x, ops, source, valid, resource, today, raws, prepared) && Resolve.DistinctSlugs(ops)
    ensures DistinctKeys(prepared) && forall k | 0 <= k < |ops| :: prepared[k].Key() == ops[k].Key()
  {
  }

  lemma KeysReported(b: Pages, prepared: seq<Prepared>, today: string, ops: seq<PageOp>)
    requires |prepared| == |ops| && Resolve.DistinctSlugs(ops) && DistinctKeys(prepared)
    requires forall k | 0 <= k < |ops| :: prepared[k].Key() == ops[k].Key()
    ensures Reports(b, ops, Slugs(NewKeys(b, prepared, today)), Slugs(OldKeys(b, prepared, today)))
  {
    var added, kept := NewKeys(b, prepared, today), OldKeys(b, prepared, today);
    SplitCount(b, prepared, today);
    forall key | key in added || key in kept
      ensures exists j | 0 <= j < |ops| :: ops[j].Key() == key
    {
      KeyOfPlan(b, prepared, today, ops, key);
    }
    forall k | 0 <= k < |ops|
      ensures ops[k].slug in Slugs(added) <==> PageKey(ops[k].kind, ops[k].slug) !in b
      ensures ops[k].slug in Slugs(kept) <==> PageKey(ops[k].kind, ops[k].slug) in b
    {
      SlugReported(added, ops, k);
      SlugReported(kept, ops, k);
      WrittenOnce(b, prepared, today, k);
      NewKeysExact(b, prepared, today, ops[k].Key());
      SplitKeys(b, prepared, today, ops[k].Key());
      assert prepared[k].Key() == ops[k].Key();
    }
  }

  lemma KeyOfPlan(b: Pages, prepared: seq<Prepared>, today: string, ops: seq<PageOp>, key: PageKey)
    requires |prepared| == |ops| && DistinctKeys(prepared)
    requires forall k | 0 <= k < |ops| :: prepared[k].Key() == ops[k].Key()
    requires key in NewKeys(b, prepared, today) || key in OldKeys(b, prepared, today)
    ensures exists j | 0 <= j < |ops| :: ops[j].Key() == key
  {
    NewKeysExact(b, prepared, today, key);
    SplitKeys(b, prepared, today, key);
    if forall k | 0 <= k < |prepared| :: prepared[k].Key() != key {
      WriteAllFrame(b, prepared, today, key);
    } else {
      var k :| 0 <= k < |prepared| && prepared[k].Key() == key;
      assert ops[k].Key() == key;
    }
  }

  lemma PlanStays(b: Pages, prepared: seq<Prepared>, today: string, ops: seq<PageOp>)
    requires |prepared| == |ops| && forall k | 0 <= k < |ops| :: prepared[k].Key() == ops[k].Key()
    ensures OthersStay(b, WriteAll(b, prepared, today), ops)
  {
    forall key | forall k | 0 <= k < |ops| :: PageKey(ops[k].kind, ops[k].slug) != key
      ensures key in WriteAll(b, prepared, today) <==> key in b
      ensures key in b ==> WriteAll(b, prepared, today)[key] == b[key]
    {
      forall k | 0 <= k < |prepared|
        ensures prepared[k].Key() != key
      {
        assert prepared[k].Key() == PageKey(ops[k].kind, ops[k].slug);
      }
      WriteAllFrame(b, prepared, today, key);
    }
  }

  /** The pages of an ingest say what the extraction says of them, no other page changes, and the report
      names each page of the plan once. */
  lemma IngestLeaves(slugify: string -> string, b: Pages, x: Extraction, aliases: map<string, string>, source: string,
                     related: seq<string>, model: (PageOp, Option<string>) -> string, resource: Option<string>,
                     today: string, prepared: seq<Prepared>)
    requires var ops := Plan(Context(slugify, b, aliases, source), x, related);
      IsComposed(RulesFor(slugify), x, ops, source, ValidSlugs(ops, b), resource, today, Proses(model, ops, b),
                 prepared)
    ensures var ops, b' := Plan(Context(slugify, b, aliases, source), x, related), WriteAll(b, prepared, today);
      && (forall k: nat | k < |ops| :: Leaves(slugify, b, b', x, ops, k, source, model, resource, today))
      && OthersStay(b, b', ops)
      && Reports(b, ops, Slugs(NewKeys(b, prepared, today)), Slugs(OldKeys(b, prepared, today)))
  {
    var c := Context(slugify, b, aliases, source);
    var ops := Plan(c, x, related);
    PlanSlugsDistinct(c, x, related);
    ComposedKeys(RulesFor(slugify), x, ops, source, ValidSlugs(ops, b), resource, today, Proses(model, ops, b),
                 prepared);
    KeysReported(b, prepared, today, ops);
    PlanStays(b, prepared, today, ops);
    ValidSlugsAre(ops, b);
    forall k: nat | k < |ops|
      ensures Leaves(slugify, b, WriteAll(b, prepared, today), x, ops, k, source, model, resource, today)
    {
      ComposedAt(RulesFor(slugify), x, ops, source, ValidSlugs(ops, b), resource, today, model, b, prepared, k);
      PageIsLeft(slugify, b, x, ops[k], ValidSlugs(ops, b), source, model, resource, today, prepared, k);
    }
  }

  lemma ComposedAt(r: Rules, x: Extraction, ops: seq<PageOp>, source: string, valid: set<string>,
                   resource: Option<string>, today: string, model: (PageOp, Option<string>) -> string, b: Pages,
                   prepared: seq<Prepared>, k: nat)
    requires IsComposed(r, x, ops, source, valid, resource, today, Proses(model, ops, b), prepared) && k < |ops|
    ensures prepared[k] ==
      PreparedFor(r, x, ops[k], source, model(ops[k], ExistingBody(b, ops[k].Key())), valid, resource, today)
    ensures prepared[k].Key() == ops[k].Key()
  {
  }

  lemma PageIsLeft(slugify: string -> string, b: Pages, x: Extraction, op: PageOp, valid: set<string>, source: string,
                   model: (PageOp, Option<string>) -> string, resource: Option<string>, today: string,
                   prepared: seq<Prepared>, k: nat)
    requires DistinctKeys(prepared) && k < |prepared| && prepared[k].Key() == op.Key()
    requires prepared[k] == PreparedFor(RulesFor(slugify), x, op, source, model(op, ExistingBody(b, op.Key())), valid,
                                        resource, today)
    ensures op.Key() in WriteAll(b, prepared, today)
      && LeftAs(slugify, b, x, op, valid, source, model, resource, today, WriteAll(b, prepared, today)[op.Key()])
  {
    WrittenOnce(b, prepared, today, k);
    ComposedSays(slugify, b, x, op, valid, source, model, resource, today);
  }

  lemma ValidSlugsAre(ops: seq<PageOp>, b: Pages)
    ensures ValidSlugs(ops, b) == AllSlugs(b) + (set j | 0 <= j < |ops| :: ops[j].slug)
  {
  }

  /** Phase A on its own: the slug of the source and the prepared pages. */
  method PrepareSource(bundle: OkfBundle, slugify: string -> string, x: Extraction, given: Option<string>,
                       answer: Option<Answer>, model: (PageOp, Option<string>) -> string, resource: Option<string>,
                       today: string)
    returns (source: string, prepared: seq<Prepared>, ghost hints: Hints)
    ensures source == SourceSlug(slugify, given, x) && Answered(bundle.pages, source, answer, hints)
    ensures var ops := Plan(Context(slugify, bundle.pages, hints.aliases, source), x, hints.related);
      IsComposed(RulesFor(slugify), x, ops, source, ValidSlugs(ops, bundle.pages), resource, today,
                 Proses(model, ops, bundle.pages), prepared)
  {
    source := SourceSlug(slugify, given, x);
    var h := RelateSource(bundle, source, answer);
    var ops := Resolve.Resolve(Context(slugify, bundle.pages, h.aliases, source), x, h.related);
    prepared := ComposeAll(bundle, RulesFor(slugify), x, ops, source, model, resource, today);
    hints := h;
  }

  /** An ingest with nothing else going on, from the extraction to the written pages. */
  method IngestSource(bundle: OkfBundle, slugify: string -> string, x: Extraction, given: Option<string>,
                      answer: Option<Answer>, model: (PageOp, Option<string>) -> string, resource: Option<string>,
                      today: string)
    returns (source: string, created: seq<string>, updated: seq<string>,
             ghost hints: Hints, ghost prepared: seq<Prepared>)
    modifies bundle
    ensures given.Some? && given.value != "" ==> source == given.value
    ensures given.None? || given.value == "" ==> source == if x.slug != "" then x.slug else slugify(x.title)
    ensures source == SourceSlug(slugify, given, x)
    ensures Answered(old(bundle.pages), source, answer, hints) && HintsFrom(old(bundle.pages), source, hints)
    ensures var ops := Plan(Context(slugify, old(bundle.pages), hints.aliases, source), x, hints.related);
      && IsComposed(RulesFor(slugify), x, ops, source, ValidSlugs(ops, old(bundle.pages)), resource, today,
                    Proses(model, ops, old(bundle.pages)), prepared)
      && (forall k: nat | k < |ops| ::
           Leaves(slugify, old(bundle.pages), bundle.pages, x, ops, k, source, model, resource, today))
      && OthersStay(old(bundle.pages), bundle.pages, ops) && Reports(old(bundle.pages), ops, created, updated)
    ensures bundle.pages == WriteAll(old(bundle.pages), prepared, today) && Grows(old(bundle.pages), bundle.pages)
    ensures created == Slugs(NewKeys(old(bundle.pages), prepared, today)) && |created| + |updated| == |prepared|
    ensures updated == Slugs(OldKeys(old(bundle.pages), prepared, today))
  {
    var batch;
    source, batch, hints := PrepareSource(bundle, slugify, x, given, answer, model, resource, today);
    prepared := batch;
    AnsweredFrom(bundle.pages, source, answer, hints);
    WriteAllGrows(bundle.pages, prepared, today);
    IngestLeaves(slugify, bundle.pages, x, hints.aliases, source, hints.related, model, resource, today, prepared);
    created, updated := WritePrepared(bundle, batch, today);
  }

  lemma {:induction false} WriteAllSlugs(b: Pages, prepared: seq<Prepared>, today: string)
    ensures AllSlugs(WriteAll(b, prepared, today)) == AllSlugs(b) + SlugsIn(prepared)
  {
    if prepared != [] {
      var front, p := prepared[..|prepared| - 1], prepared[|prepared| - 1];
      assert prepared == front + [p];
      WriteAllSlugs(b, front, today);
      SlugsInMore(front, p);
      WriteOneGrows(WriteAll(b, front, today), p, today);
      SetAssoc(AllSlugs(b), SlugsIn(front), {p.page.slug});
    }
  }

  function SlugsIn(prepared: seq<Prepared>): set<string> {
    set k | 0 <= k < |prepared| :: prepared[k].page.slug
  }

  lemma SlugsInMore(front: seq<Prepared>, p: Prepared)
    ensures SlugsIn(front + [p]) == SlugsIn(front) + {p.page.slug}
  {
    var all := front + [p];
    assert forall k | 0 <= k < |front| :: all[k] == front[k];
    assert all[|front|] == p;
  }

  lemma KeysWritten(b: Pages, prepared: seq<Prepared>, today: string, ops: seq<PageOp>)
    requires |prepared| == |ops| && forall k | 0 <= k < |ops| :: prepared[k].Key() == ops[k].Key()
    ensures Applied(b, ops, WriteAll(b, prepared, today))
    decreases |ops|
  {
    if ops != [] {
      var n := |ops| - 1;
      KeysWritten(b, prepared[..n], today, ops[..n]);
      assert ops == ops[..n] + [ops[n]];
      OneMoreApplied(b, ops[..n], ops[n], WriteAll(b, prepared[..n], today), WriteAll(b, prepared, today));
    }
  }

  lemma OneMoreApplied(b: Pages, ops: seq<PageOp>, op: PageOp, mid: Pages, after: Pages)
    requires Applied(b, ops, mid) && after.Keys == mid.Keys + {op.Key()}
    ensures Applied(b, ops + [op], after)
  {
    KeysOfMore(ops, op);
    SetAssoc(b.Keys, KeysOf(ops), {op.Key()});
  }

  lemma KeysOfMore(ops: seq<PageOp>, op: PageOp)
    ensures KeysOf(ops + [op]) == KeysOf(ops) + {op.Key()}
  {
    var all := ops + [op];
    assert forall k | 0 <= k < |ops| :: all[k] == ops[k];
    assert all[|ops|] == op;
  }

  /** Ingesting the same extraction again with the same hints plans updates of the very pages the first
      ingest wrote and nothing else. */
  lemma IngestTwice(r: Rules, c: Context, x: Extraction, related: seq<string>, prepared: seq<Prepared>,
                    raws: seq<string>, valid: set<string>, resource: Option<string>, today: string)
    requires AliasesKnown(c) && IsComposed(r, x, Plan(c, x, related), c.source, valid, resource, today, raws, prepared)
    ensures var ops, again := Plan(c, x, related), Plan(Later(c, WriteAll(c.pages, prepared, today)), x, related);
      && |again| == |ops| && (forall k | 1 <= k < |ops| :: again[k] == ops[k].(action := Update))
      && again[0].Key() == ops[0].Key() && again[0].action == Update
      && Without(again[0].links, c.source) == Without(ops[0].links, c.source)
  {
    var ops := Plan(c, x, related);
    assert forall k | 0 <= k < |ops| :: prepared[k].Key() == ops[k].Key();
    KeysWritten(c.pages, prepared, today, ops);
    ReplayIsStable(c, x, related, WriteAll(c.pages, prepared, today));
  }

  /** Every planned link of the first `n` pages names one of these slugs. */
  predicate FirstLinksIn(prepared: seq<Prepared>, n: nat, slugs: set<string>)
    requires n <= |prepared|
  {
    forall k, l | 0 <= k < n && l in prepared[k].draft.links :: l in slugs
  }

  predicate RestIn(prepared: seq<Prepared>, n: nat, slugs: set<string>)
    requires n <= |prepared|
  {
    forall k | n <= k < |prepared| :: prepared[k].page.slug in slugs
  }

  predicate Follows(prepared: seq<Prepared>, ops: seq<PageOp>) {
    |prepared| == |ops|
    && forall k | 0 <= k < |ops| :: prepared[k].page.slug == ops[k].slug && prepared[k].draft.links == ops[k].links
  }

  lemma RestSuffices(c: Context, x: Extraction, related: seq<string>, prepared: seq<Prepared>,
                     n: nat, slugs: set<string>)
    requires Follows(prepared, Plan(c, x, related)) && n <= |prepared| && AllSlugs(c.pages) <= slugs
    requires SlugsIn(prepared[..n]) <= slugs && RestIn(prepared, n, slugs)
    ensures FirstLinksIn(prepared, n, slugs)
  {
    var ops := Plan(c, x, related);
    forall k, l | 0 <= k < n && l in prepared[k].draft.links
      ensures l in slugs
    {
      PlannedLinksWithin(c, x, related, k, l);
      if i :| 0 <= i < |ops| && ops[i].slug == l {
        assert i < n ==> prepared[..n][i] == prepared[i];
        assert prepared[i].page.slug == l;
      }
    }
  }

  /** The source page links to every page of the plan. */
  lemma RestNeeded(c: Context, x: Extraction, related: seq<string>, prepared: seq<Prepared>, n: nat, slugs: set<string>)
    requires Follows(prepared, Plan(c, x, related)) && 0 < n <= |prepared| && FirstLinksIn(prepared, n, slugs)
    ensures RestIn(prepared, n, slugs)
  {
    forall k | n <= k < |prepared|
      ensures prepared[k].page.slug in slugs
    {
      LinksGoBothWays(c, x, related, k);
      assert prepared[k].page.slug in prepared[0].draft.links;
    }
  }

  /** An attempt that breaks off behind page `n` leaves a dangling link exactly if one of the pages it had
      yet to write is not there already. */
  lemma BrokenOffDanglesIff(r: Rules, c: Context, x: Extraction, related: seq<string>, b: Pages,
                            prepared: seq<Prepared>,
                            raws: seq<string>, valid: set<string>, resource: Option<string>, today: string, n: nat)
    requires AllSlugs(c.pages) <= AllSlugs(b) && 0 < n <= |prepared|
    requires IsComposed(r, x, Plan(c, x, related), c.source, valid, resource, today, raws, prepared)
    ensures var slugs := AllSlugs(WriteAll(b, prepared[..n], today));
      FirstLinksIn(prepared, n, slugs) <==> RestIn(prepared, n, slugs)
  {
    var slugs := AllSlugs(WriteAll(b, prepared[..n], today));
    WriteAllSlugs(b, prepared[..n], today);
    if RestIn(prepared, n, slugs) {
      RestSuffices(c, x, related, prepared, n, slugs);
    }
    if FirstLinksIn(prepared, n, slugs) {
      RestNeeded(c, x, related, prepared, n, slugs);
    }
  }

  /** Into an empty bundle, an attempt that breaks off behind its source page leaves a dangling link
      whenever its plan has another page. */
  lemma BrokenOffWriteDangles(r: Rules, c: Context, x: Extraction, related: seq<string>, prepared: seq<Prepared>,
                              raws: seq<string>, valid: set<string>, resource: Option<string>, today: string)
    requires c.pages == map[] && |Plan(c, x, related)| > 1
    requires IsComposed(r, x, Plan(c, x, related), c.source, valid, resource, today, raws, prepared)
    ensures exists l | l in prepared[0].draft.links :: l !in AllSlugs(WriteAll(c.pages, prepared[..1], today))
  {
    var ops := Plan(c, x, related);
    PlanSlugsDistinct(c, x, related);
    assert forall k | 0 <= k < |ops| :: prepared[k].page.slug == ops[k].slug;
    WriteAllSlugs(c.pages, prepared[..1], today);
    BrokenOffDanglesIff(r, c, x, related, c.pages, prepared, raws, valid, resource, today, 1);
    assert !RestIn(prepared, 1, AllSlugs(WriteAll(c.pages, prepared[..1], today))) by {
      assert prepared[1].page.slug != prepared[0].page.slug;
    }
  }
}
