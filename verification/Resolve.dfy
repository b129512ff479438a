/** Pass 2a of an ingest: from an extraction and the pages that exist to a plan of page operations with
    their links, without any model call; and the validation of the hints that steer it. */
module Resolve {
  import opened Strings
  import opened Okf
  import opened Bundle

  datatype Named = Named(name: string, description: string)

  datatype Extraction = Extraction(title: string, slug: string, summary: string, tags: seq<string>,
                                   domain: Option<string>, entities: seq<Named>, concepts: seq<Named>,
                                   citations: seq<string>, references: seq<string>)

  datatype Action = Create | Update

  datatype PageOp = PageOp(kind: PageType, slug: string, title: string, action: Action, description: string,
                           links: seq<string>, facts: seq<string>, aliases: seq<string>) {
    function Key(): PageKey { PageKey(kind, slug) }
  }

  /** What planning looks at: the pages of the bundle, the aliases and the slug of the source. */
  datatype Context = Context(slugify: string -> string, pages: Pages, aliases: map<string, string>, source: string) {
    predicate Known(slug: string) { slug in AllSlugs(pages) }

    /** The existing page this name is an alias of. */
    function Canonical(name: string): Option<string> {
      if name in aliases && Known(aliases[name]) then Some(aliases[name]) else None
    }

    function SlugFor(name: string): string {
      if Canonical(name).Some? then Canonical(name).value else slugify(name)
    }
  }

  /** An extracted name and the type of page it asks for. */
  datatype Mention = Mention(kind: PageType, named: Named)

  predicate IsChildKind(kind: PageType) {
    kind == Entity || kind == Concept
  }

  function MentionsOf(kind: PageType, names: seq<Named>): (r: seq<Mention>)
    ensures |r| == |names|
  {
    seq(|names|, i requires 0 <= i < |names| => Mention(kind, names[i]))
  }

  function Mentions(x: Extraction): seq<Mention> {
    MentionsOf(Entity, x.entities) + MentionsOf(Concept, x.concepts)
  }

  // ---------------------------------------------------------------- what is planned

  function ActionFor(c: Context, kind: PageType, slug: string): Action {
    if PageKey(kind, slug) in c.pages then Update else Create
  }

  /** A mention may get a page of its own: its slug is not the source's and not taken by another type. */
  predicate MayPlan(c: Context, m: Mention) {
    var slug := c.SlugFor(m.named.name);
    slug != c.source && (c.Known(slug) ==> PageKey(m.kind, slug) in c.pages)
  }

  function ChildOp(c: Context, m: Mention): PageOp {
    var name, slug := m.named.name, c.SlugFor(m.named.name);
    PageOp(m.kind, slug, name, ActionFor(c, m.kind, slug), m.named.description, [c.source],
           if m.named.description != "" then [m.named.description] else [],
           if c.Canonical(name).Some? && c.Canonical(name).value != c.slugify(name) then [name] else [])
  }

  function SlugsOf(ops: seq<PageOp>): set<string> {
    set k | 0 <= k < |ops| :: ops[k].slug
  }

  /** One operation per slug, for the first mention that may have it. */
  function ChildOps(c: Context, ms: seq<Mention>): seq<PageOp> {
    if ms == [] then []
    else
      var before, m := ChildOps(c, ms[..|ms| - 1]), ms[|ms| - 1];
      if MayPlan(c, m) && c.SlugFor(m.named.name) !in SlugsOf(before) then before + [ChildOp(c, m)] else before
  }

  /** Every mention is linked from the source, planned or not. */
  function ChildSlugs(c: Context, ms: seq<Mention>): seq<string> {
    if ms == [] then [] else ChildSlugs(c, ms[..|ms| - 1]) + [c.SlugFor(ms[|ms| - 1].named.name)]
  }

  predicate IsReference(c: Context, slug: string) {
    PageKey(Concept, slug) in c.pages || PageKey(Entity, slug) in c.pages || PageKey(Source, slug) in c.pages
  }

  function RefLinks(c: Context, refs: seq<string>): seq<string> {
    if refs == [] then []
    else
      var before, slug := RefLinks(c, refs[..|refs| - 1]), c.slugify(refs[|refs| - 1]);
      if IsReference(c, slug) then before + [slug] else before
  }

  function RelatedLinks(c: Context, related: seq<string>): seq<string> {
    if related == [] then []
    else
      var before, slug := RelatedLinks(c, related[..|related| - 1]), related[|related| - 1];
      if c.Known(slug) && slug != c.source then before + [slug] else before
  }

  function LinkList(c: Context, x: Extraction, related: seq<string>): seq<string> {
    ChildSlugs(c, Mentions(x)) + RefLinks(c, x.references) + RelatedLinks(c, related)
  }

  function SourceOp(c: Context, x: Extraction, related: seq<string>): PageOp {
    PageOp(Source, c.source, x.title, ActionFor(c, Source, c.source), x.summary, Deduped(LinkList(c, x, related)),
           [x.summary] + seq(|x.citations|, i requires 0 <= i < |x.citations| => "cites: " + x.citations[i]), [])
  }

  function Plan(c: Context, x: Extraction, related: seq<string>): seq<PageOp> {
    [SourceOp(c, x, related)] + ChildOps(c, Mentions(x))
  }

  // ---------------------------------------------------------------- the planner

  /** The lists the nested planning function appends to. */
  class Planner {
    const c: Context
    var ops: seq<PageOp>
    var childSlugs: seq<string>
    var planned: set<string>

    /** Everything planned so far comes from these mentions. */
    ghost predicate Done(ms: seq<Mention>)
      reads this
    {
      ops == ChildOps(c, ms) && childSlugs == ChildSlugs(c, ms) && planned == SlugsOf(ops)
    }

    constructor (c: Context)
      ensures this.c == c && Done([])
    {
      this.c := c;
      ops, childSlugs, planned := [], [], {};
    }

    method Add(kind: PageType, name: string, description: string, ghost ms: seq<Mention>)
      requires Done(ms)
      modifies this
      ensures Done(ms + [Mention(kind, Named(name, description))])
    {
      ghost var m := Mention(kind, Named(name, description));
      assert (ms + [m])[..|ms|] == ms;
      var known := name in c.aliases && c.aliases[name] in AllSlugs(c.pages);
      var slug := if known then c.aliases[name] else c.slugify(name);
      childSlugs := childSlugs + [slug];
      if slug == c.source || slug in planned {
        return;
      }
      if slug in AllSlugs(c.pages) && PageKey(kind, slug) !in c.pages {
        return;
      }
      planned := planned + {slug};
      var aliases := if known && c.aliases[name] != c.slugify(name) then [name] else [];
      var action := if PageKey(kind, slug) in c.pages then Update else Create;
      ghost var before := ops;
      ops := ops + [PageOp(kind, slug, name, action, description, [c.source],
                           if description != "" then [description] else [], aliases)];
      SlugsOfMore(before, ops[|before|]);
    }
  }

  lemma SlugsOfMore(ops: seq<PageOp>, op: PageOp)
    ensures SlugsOf(ops + [op]) == SlugsOf(ops) + {op.slug}
  {
    var all := ops + [op];
    assert forall k | 0 <= k < |ops| :: all[k] == ops[k];
    assert all[|ops|] == op;
  }

  lemma MentionsMore(ms: seq<Mention>, kind: PageType, names: seq<Named>, i: nat)
    requires i < |names|
    ensures var all := MentionsOf(kind, names);
      ms + all[..i] + [Mention(kind, Named(names[i].name, names[i].description))] == ms + all[..i + 1]
  {
    var all := MentionsOf(kind, names);
    assert all[..i + 1] == all[..i] + [all[i]];
    Assoc(ms, all[..i], [all[i]]);
  }

  method AddAll(p: Planner, kind: PageType, names: seq<Named>, ghost ms: seq<Mention>)
    requires p.Done(ms)
    modifies p
    ensures p.Done(ms + MentionsOf(kind, names))
  {
    ghost var all := MentionsOf(kind, names);
    assert ms + all[..0] == ms;
    for i := 0 to |names|
      invariant p.Done(ms + all[..i])
    {
      p.Add(kind, names[i].name, names[i].description, ms + all[..i]);
      MentionsMore(ms, kind, names, i);
    }
    assert all[..|names|] == all;
  }

  /** The ordered list of page operations, the source page first. */
  method Resolve(c: Context, x: Extraction, related: seq<string>) returns (ops: seq<PageOp>)
    ensures ops == Plan(c, x, related)
  {
    var p := new Planner(c);
    AddAll(p, Entity, x.entities, []);
    assert [] + MentionsOf(Entity, x.entities) == MentionsOf(Entity, x.entities);
    AddAll(p, Concept, x.concepts, MentionsOf(Entity, x.entities));
    var refLinks := [];
    for i := 0 to |x.references|
      invariant refLinks == RefLinks(c, x.references[..i])
    {
      assert x.references[..i + 1][..i] == x.references[..i];
      var slug := c.slugify(x.references[i]);
      if PageKey(Concept, slug) in c.pages || PageKey(Entity, slug) in c.pages || PageKey(Source, slug) in c.pages {
        refLinks := refLinks + [slug];
      }
    }
    assert x.references[..|x.references|] == x.references;
    var relatedLinks := [];
    for i := 0 to |related|
      invariant relatedLinks == RelatedLinks(c, related[..i])
    {
      assert related[..i + 1][..i] == related[..i];
      if related[i] in AllSlugs(c.pages) && related[i] != c.source {
        relatedLinks := relatedLinks + [related[i]];
      }
    }
    assert related[..|related|] == related;
    var links := Dedupe(p.childSlugs + refLinks + relatedLinks);
    var action := if PageKey(Source, c.source) in c.pages then Update else Create;
    var facts := [x.summary] + seq(|x.citations|, i requires 0 <= i < |x.citations| => "cites: " + x.citations[i]);
    assert facts == SourceOp(c, x, related).facts;
    ops := [PageOp(Source, c.source, x.title, action, x.summary, links, facts, [])] + p.ops;
  }

  /** Drop repeats, keep first-seen order. */
  method Dedupe(items: seq<string>) returns (out: seq<string>)
    ensures out == Deduped(items)
  {
    var seen := {};
    out := [];
    for i := 0 to |items|
      invariant out == Deduped(items[..i]) && seen == (set x | x in out)
    {
      assert items[..i + 1][..i] == items[..i];
      if items[i] !in seen {
        seen := seen + {items[i]};
        out := out + [items[i]];
      }
    }
    assert items[..|items|] == items;
  }

  // ---------------------------------------------------------------- the plan is well formed

  predicate DistinctSlugs(ops: seq<PageOp>) {
    forall i, j | 0 <= i < j < |ops| :: ops[i].slug != ops[j].slug
  }

  /** Slug `s` gets a page exactly when some mention that may have it asks for it. */
  lemma {:induction false} PlannedIff(c: Context, ms: seq<Mention>, s: string)
    ensures s in SlugsOf(ChildOps(c, ms)) <==> exists m | m in ms :: MayPlan(c, m) && c.SlugFor(m.named.name) == s
  {
    if ms != [] {
      var front, m := ms[..|ms| - 1], ms[|ms| - 1];
      PlannedIff(c, front, s);
      SlugsOfMore(ChildOps(c, front), ChildOp(c, m));
      assert forall n :: n in ms <==> n in front || n == m;
    }
  }

  predicate FromMention(c: Context, ms: seq<Mention>, op: PageOp) {
    exists m | m in ms :: MayPlan(c, m) && op == ChildOp(c, m)
  }

  lemma {:induction false} ChildOpsFromMentions(c: Context, ms: seq<Mention>)
    ensures DistinctSlugs(ChildOps(c, ms))
    ensures forall k | 0 <= k < |ChildOps(c, ms)| :: FromMention(c, ms, ChildOps(c, ms)[k])
  {
    if ms != [] {
      var front, m := ms[..|ms| - 1], ms[|ms| - 1];
      ChildOpsFromMentions(c, front);
      var before, ops := ChildOps(c, front), ChildOps(c, ms);
      forall k | 0 <= k < |ops|
        ensures FromMention(c, ms, ops[k])
      {
        if k < |before| {
          assert FromMention(c, front, before[k]);
          var n :| n in front && MayPlan(c, n) && before[k] == ChildOp(c, n);
          assert n in ms;
        } else {
          assert m in ms;
        }
      }
    }
  }

  lemma {:induction false} ChildSlugsExact(c: Context, ms: seq<Mention>, s: string)
    ensures s in ChildSlugs(c, ms) <==> exists m | m in ms :: c.SlugFor(m.named.name) == s
  {
    if ms != [] {
      var front, m := ms[..|ms| - 1], ms[|ms| - 1];
      ChildSlugsExact(c, front, s);
      assert forall n :: n in ms <==> n in front || n == m;
    }
  }

  /** No two operations of a plan touch the same slug. */
  lemma PlanSlugsDistinct(c: Context, x: Extraction, related: seq<string>)
    ensures DistinctSlugs(Plan(c, x, related))
  {
    ChildOpsFromMentions(c, Mentions(x));
    var ops := ChildOps(c, Mentions(x));
    forall k | 0 <= k < |ops|
      ensures ops[k].slug != c.source
    {
      assert FromMention(c, Mentions(x), ops[k]);
    }
  }

  /** Every planned entity or concept links to the source and the source links to it. */
  lemma LinksGoBothWays(c: Context, x: Extraction, related: seq<string>, k: nat)
    requires 0 < k < |Plan(c, x, related)|
    ensures var ops := Plan(c, x, related);
      ops[k].links == [ops[0].slug] && ops[k].slug in ops[0].links && IsChildKind(ops[k].kind)
  {
    var ms := Mentions(x);
    ChildOpsFromMentions(c, ms);
    var op := ChildOps(c, ms)[k - 1];
    assert FromMention(c, ms, op);
    var m :| m in ms && MayPlan(c, m) && op == ChildOp(c, m);
    ChildSlugsExact(c, ms, op.slug);
    assert op.slug in LinkList(c, x, related);
    MentionKinds(x, m);
  }

  lemma MentionKinds(x: Extraction, m: Mention)
    requires m in Mentions(x)
    ensures IsChildKind(m.kind)
  {
    var a, b := MentionsOf(Entity, x.entities), MentionsOf(Concept, x.concepts);
    var i :| 0 <= i < |a + b| && (a + b)[i] == m;
    assert m == if i < |a| then a[i] else b[i - |a|];
  }

  // ---------------------------------------------------------------- applying a plan

  function KeysOf(ops: seq<PageOp>): set<PageKey> {
    set k | 0 <= k < |ops| :: ops[k].Key()
  }

  /** `after` has the pages of `before` and those of the plan. */
  predicate Applied(before: Pages, ops: seq<PageOp>, after: Pages) {
    after.Keys == before.Keys + KeysOf(ops)
  }

  lemma AppliedSlugs(before: Pages, ops: seq<PageOp>, after: Pages, s: string)
    requires Applied(before, ops, after)
    ensures s in AllSlugs(after) <==> s in AllSlugs(before) || s in SlugsOf(ops)
  {
    if s in AllSlugs(after) {
      var k :| k in after && k.slug == s;
      assert k in before || k in KeysOf(ops);
    }
    if s in AllSlugs(before) {
      var k :| k in before && k.slug == s;
      assert k in after;
    }
    if i :| 0 <= i < |ops| && ops[i].slug == s {
      assert ops[i].Key() in KeysOf(ops);
    }
  }

  lemma AppliedChildren(c: Context, x: Extraction, related: seq<string>, after: Pages, key: PageKey)
    requires Applied(c.pages, Plan(c, x, related), after)
    ensures key in after <==>
      key in c.pages || key == PageKey(Source, c.source) || key in KeysOf(ChildOps(c, Mentions(x)))
  {
    var ops, children := Plan(c, x, related), ChildOps(c, Mentions(x));
    assert ops[0].Key() == PageKey(Source, c.source);
    assert forall k | 0 <= k < |children| :: ops[k + 1] == children[k];
  }

  lemma {:induction false} FilteredLinksKnown(c: Context, refs: seq<string>, related: seq<string>)
    ensures forall s | s in RefLinks(c, refs) :: c.Known(s)
    ensures forall s | s in RelatedLinks(c, related) :: c.Known(s)
    decreases |refs| + |related|
  {
    if refs != [] {
      FilteredLinksKnown(c, refs[..|refs| - 1], related);
      var slug := c.slugify(refs[|refs| - 1]);
      assert IsReference(c, slug) ==> c.Known(slug);
    } else if related != [] {
      FilteredLinksKnown(c, refs, related[..|related| - 1]);
    }
  }

  /** A planned link names an existing or a planned page. */
  lemma PlannedLinksWithin(c: Context, x: Extraction, related: seq<string>, k: nat, s: string)
    requires k < |Plan(c, x, related)| && s in Plan(c, x, related)[k].links
    ensures c.Known(s) || s in SlugsOf(Plan(c, x, related))
  {
    var ops, ms := Plan(c, x, related), Mentions(x);
    assert ops[0].slug in SlugsOf(ops);
    if k > 0 {
      LinksGoBothWays(c, x, related, k);
    } else {
      FilteredLinksKnown(c, x.references, related);
      assert s in LinkList(c, x, related);
      if s in ChildSlugs(c, ms) {
        ChildSlugsExact(c, ms, s);
        PlannedIff(c, ms, s);
        assert forall j | 0 <= j < |ChildOps(c, ms)| :: ops[j + 1] == ChildOps(c, ms)[j];
      }
    }
  }

  /** Once the plan is applied every link it makes leads to a page. */
  lemma NoPlannedLinkDangles(c: Context, x: Extraction, related: seq<string>, after: Pages, k: nat, s: string)
    requires Applied(c.pages, Plan(c, x, related), after) && k < |Plan(c, x, related)|
        && s in Plan(c, x, related)[k].links
    ensures s in AllSlugs(after)
  {
    PlannedLinksWithin(c, x, related, k, s);
    AppliedSlugs(c.pages, Plan(c, x, related), after, s);
  }

  /** No slug is held by two types. */
  ghost predicate OneType(b: Pages) {
    forall j, k | j in b && k in b && j.slug == k.slug :: j == k
  }

  /** Children never take a slug from another type, so what decides is the source page. */
  lemma OneTypeKeptIff(c: Context, x: Extraction, related: seq<string>, after: Pages)
    requires OneType(c.pages) && Applied(c.pages, Plan(c, x, related), after)
    ensures OneType(after) <==> (c.Known(c.source) ==> PageKey(Source, c.source) in c.pages)
  {
    var src, children := PageKey(Source, c.source), ChildOps(c, Mentions(x));
    forall key
      ensures key in after <==> key in c.pages || key == src || key in KeysOf(children)
    {
      AppliedChildren(c, x, related, after, key);
    }
    if c.Known(c.source) && src !in c.pages {
      var k :| k in c.pages && k.slug == c.source;
      assert k in after && src in after && k != src;
    } else {
      forall j, k | j in after && k in after && j.slug == k.slug
        ensures j == k
      {
        OwnSlug(c, Mentions(x), j, k);
        OwnSlug(c, Mentions(x), k, j);
      }
    }
  }

  /** A key of a child operation shares its slug neither with the source nor with a page of another type. */
  lemma OwnSlug(c: Context, ms: seq<Mention>, j: PageKey, k: PageKey)
    requires j.slug == k.slug
    ensures j in KeysOf(ChildOps(c, ms)) ==> k.slug != c.source
    ensures j in KeysOf(ChildOps(c, ms)) && k in KeysOf(ChildOps(c, ms)) ==> j == k
    ensures j in KeysOf(ChildOps(c, ms)) && k in c.pages ==> j in c.pages
  {
    var ops := ChildOps(c, ms);
    ChildOpsFromMentions(c, ms);
    if i :| 0 <= i < |ops| && ops[i].Key() == j {
      assert FromMention(c, ms, ops[i]);
      assert k in c.pages ==> c.Known(k.slug);
    }
  }

  // ---------------------------------------------------------------- planning again

  /** The hints were checked against the catalog. */
  predicate AliasesKnown(c: Context) {
    forall name | name in c.aliases :: c.Known(c.aliases[name])
  }

  predicate SameOps(ops: seq<PageOp>, again: seq<PageOp>) {
    |again| == |ops| && forall k | 0 <= k < |ops| :: again[k] == ops[k].(action := Update)
  }

  function Later(c: Context, after: Pages): Context {
    c.(pages := after)
  }

  lemma SameSlugs(c: Context, after: Pages, name: string)
    requires AliasesKnown(c) && AllSlugs(c.pages) <= AllSlugs(after)
    ensures Later(c, after).Canonical(name) == c.Canonical(name) && Later(c, after).SlugFor(name) == c.SlugFor(name)
  {
  }

  /** Between a plan and its replay a child key shows up exactly when the plan brought it. */
  ghost predicate Brought(c: Context, ms: seq<Mention>, after: Pages) {
    && AllSlugs(c.pages) <= AllSlugs(after)
    && (forall key: PageKey | IsChildKind(key.kind) ::
         key in after <==> key in c.pages || key in KeysOf(ChildOps(c, ms)))
    && (forall s | s in SlugsOf(ChildOps(c, ms)) :: s in AllSlugs(after))
  }

  /** A mention passed over stays passed over; one that got a page may have it again. */
  lemma MayPlanAgain(c: Context, ms: seq<Mention>, after: Pages, m: Mention)
    requires AliasesKnown(c) && Brought(c, ms, after) && IsChildKind(m.kind)
    ensures !MayPlan(c, m) ==> !MayPlan(Later(c, after), m)
    ensures MayPlan(c, m) && ChildOp(c, m) in ChildOps(c, ms) ==> MayPlan(Later(c, after), m)
    ensures MayPlan(c, m) && ChildOp(c, m) in ChildOps(c, ms)
        ==> ChildOp(Later(c, after), m) == ChildOp(c, m).(action := Update)
  {
    var slug, ops := c.SlugFor(m.named.name), ChildOps(c, ms);
    var key := PageKey(m.kind, slug);
    SameSlugs(c, after, m.named.name);
    if !MayPlan(c, m) && slug != c.source {
      var held :| held in c.pages && held.slug == slug;
      OwnSlug(c, ms, key, held);
    }
    if ChildOp(c, m) in ops {
      var i :| 0 <= i < |ops| && ops[i] == ChildOp(c, m);
      assert ops[i].Key() == key && key in KeysOf(ops);
    }
  }

  lemma SameOpsSlugs(ops: seq<PageOp>, again: seq<PageOp>)
    requires SameOps(ops, again)
    ensures SlugsOf(again) == SlugsOf(ops)
  {
  }

  lemma {:induction false} ChildOpsAgain(c: Context, all: seq<Mention>, n: nat, after: Pages)
    requires AliasesKnown(c) && Brought(c, all, after) && n <= |all|
    requires forall m | m in all :: IsChildKind(m.kind)
    ensures SameOps(ChildOps(c, all[..n]), ChildOps(Later(c, after), all[..n]))
  {
    if n > 0 {
      var m, d := all[n - 1], Later(c, after);
      ChildOpsAgain(c, all, n - 1, after);
      assert all[..n][..n - 1] == all[..n - 1];
      var before := ChildOps(c, all[..n - 1]);
      SameOpsSlugs(before, ChildOps(d, all[..n - 1]));
      SameSlugs(c, after, m.named.name);
      if MayPlan(c, m) && c.SlugFor(m.named.name) !in SlugsOf(before) {
        ChildOpsGrow(c, all, n);
        assert ChildOps(c, all[..n])[|before|] == ChildOp(c, m);
      }
      MayPlanAgain(c, all, after, m);
    }
  }

  lemma {:induction false} ChildOpsGrow(c: Context, ms: seq<Mention>, n: nat)
    requires n <= |ms|
    ensures ChildOps(c, ms[..n]) <= ChildOps(c, ms)
  {
    if n == |ms| {
      assert ms[..n] == ms;
    } else {
      ChildOpsGrow(c, ms[..|ms| - 1], n);
      assert ms[..|ms| - 1][..n] == ms[..n];
    }
  }

  lemma {:induction false} ChildSlugsAgain(c: Context, ms: seq<Mention>, after: Pages)
    requires AliasesKnown(c) && AllSlugs(c.pages) <= AllSlugs(after)
    ensures ChildSlugs(Later(c, after), ms) == ChildSlugs(c, ms)
  {
    if ms != [] {
      ChildSlugsAgain(c, ms[..|ms| - 1], after);
      SameSlugs(c, after, ms[|ms| - 1].named.name);
    }
  }

  // ---------------------------------------------------------------- the links of the source, again

  function Without(s: seq<string>, x: string): seq<string> {
    if s == [] then []
    else
      var before := Without(s[..|s| - 1], x);
      if s[|s| - 1] == x then before else before + [s[|s| - 1]]
  }

  /** The links a list gives, a self-link left out. */
  function LinksBut(s: seq<string>, x: string): seq<string> {
    Without(Deduped(s), x)
  }

  lemma {:induction false} WithoutMembers(s: seq<string>, x: string, y: string)
    ensures y in Without(s, x) <==> y in s && y != x
  {
    if s != [] {
      WithoutMembers(s[..|s| - 1], x, y);
      assert y in s <==> y in s[..|s| - 1] || y == s[|s| - 1];
    }
  }

  lemma LinksButStep(s: seq<string>, y: string, x: string)
    ensures LinksBut(s + [y], x) == if y == x || y in s then LinksBut(s, x) else LinksBut(s, x) + [y]
  {
    assert (s + [y])[..|s|] == s;
    var d := Deduped(s);
    assert (d + [y])[..|d|] == d;
  }

  /** Two lists that agree stay in agreement when both get `y`, or when one gets an `y` both have or `x`. */
  lemma AgreeStep(s: seq<string>, t: seq<string>, y: string, x: string)
    requires LinksBut(s, x) == LinksBut(t, x)
    ensures LinksBut(s + [y], x) == LinksBut(t + [y], x)
    ensures y == x || y in s ==> LinksBut(s, x) == LinksBut(t + [y], x)
  {
    LinksButStep(s, y, x);
    LinksButStep(t, y, x);
    WithoutMembers(Deduped(s), x, y);
    WithoutMembers(Deduped(t), x, y);
  }

  /** Slugs of the later bundle that are new are the source's or linked as children. */
  predicate NewAreChildren(c: Context, children: seq<string>, after: Pages) {
    && (forall s | s in AllSlugs(after) :: c.Known(s) || s == c.source || s in children)
    && forall key | key in c.pages :: key in after
  }

  lemma {:induction false} RefLinksAgree(c: Context, children: seq<string>, refs: seq<string>, after: Pages)
    requires NewAreChildren(c, children, after)
    requires forall key | key in after && key !in c.pages :: key.slug == c.source || key.slug in children
    ensures LinksBut(children + RefLinks(c, refs), c.source)
      == LinksBut(children + RefLinks(Later(c, after), refs), c.source)
  {
    if refs != [] {
      RefLinksAgree(c, children, refs[..|refs| - 1], after);
      var slug := c.slugify(refs[|refs| - 1]);
      var s, t := children + RefLinks(c, refs[..|refs| - 1]), children + RefLinks(Later(c, after), refs[..|refs| - 1]);
      AgreeStep(s, t, slug, c.source);
      Assoc(children, RefLinks(c, refs[..|refs| - 1]), [slug]);
      Assoc(children, RefLinks(Later(c, after), refs[..|refs| - 1]), [slug]);
    }
  }

  lemma {:induction false} RelatedLinksAgree(c: Context, s: seq<string>, t: seq<string>, related: seq<string>,
                                             after: Pages)
    requires NewAreChildren(c, s, after) && LinksBut(s, c.source) == LinksBut(t, c.source)
    requires AllSlugs(c.pages) <= AllSlugs(after)
    ensures LinksBut(s + RelatedLinks(c, related), c.source)
      == LinksBut(t + RelatedLinks(Later(c, after), related), c.source)
  {
    if related == [] {
      assert s + [] == s && t + [] == t;
    } else {
      var front, slug := related[..|related| - 1], related[|related| - 1];
      RelatedLinksAgree(c, s, t, front, after);
      AgreeStep(s + RelatedLinks(c, front), t + RelatedLinks(Later(c, after), front), slug, c.source);
      Assoc(s, RelatedLinks(c, front), [slug]);
      Assoc(t, RelatedLinks(Later(c, after), front), [slug]);
    }
  }

  lemma PlanSlugs(c: Context, x: Extraction, related: seq<string>, s: string)
    ensures s in SlugsOf(Plan(c, x, related)) <==> s == c.source || s in SlugsOf(ChildOps(c, Mentions(x)))
  {
    var ops, children := Plan(c, x, related), ChildOps(c, Mentions(x));
    assert ops[0].slug == c.source;
    assert forall j | 0 <= j < |children| :: ops[j + 1] == children[j];
    if k :| 0 <= k < |ops| && ops[k].slug == s {
      assert k > 0 ==> children[k - 1].slug == s;
    }
  }

  lemma PlanSlug(c: Context, x: Extraction, related: seq<string>, after: Pages, s: string)
    requires Applied(c.pages, Plan(c, x, related), after)
    ensures s in AllSlugs(after) <==> c.Known(s) || s == c.source || s in SlugsOf(ChildOps(c, Mentions(x)))
    ensures s in SlugsOf(ChildOps(c, Mentions(x))) ==> s in ChildSlugs(c, Mentions(x))
  {
    AppliedSlugs(c.pages, Plan(c, x, related), after, s);
    PlanSlugs(c, x, related, s);
    PlannedIff(c, Mentions(x), s);
    ChildSlugsExact(c, Mentions(x), s);
  }

  lemma PlanIsBrought(c: Context, x: Extraction, related: seq<string>, after: Pages)
    requires Applied(c.pages, Plan(c, x, related), after)
    ensures Brought(c, Mentions(x), after) && NewAreChildren(c, ChildSlugs(c, Mentions(x)), after)
    ensures forall key | key in after && key !in c.pages ::
      key.slug == c.source || key.slug in ChildSlugs(c, Mentions(x))
  {
    var children := ChildOps(c, Mentions(x));
    forall s
      ensures s in AllSlugs(after) <==> c.Known(s) || s == c.source || s in SlugsOf(children)
      ensures s in SlugsOf(children) ==> s in ChildSlugs(c, Mentions(x))
    {
      PlanSlug(c, x, related, after, s);
    }
    forall key
      ensures key in after <==> key in c.pages || key == PageKey(Source, c.source) || key in KeysOf(children)
      ensures key in KeysOf(children) ==> key.slug in SlugsOf(children)
    {
      AppliedChildren(c, x, related, after, key);
    }
  }

  lemma SourceLinksAgain(c: Context, x: Extraction, related: seq<string>, after: Pages)
    requires AliasesKnown(c) && Applied(c.pages, Plan(c, x, related), after)
    ensures LinksBut(LinkList(Later(c, after), x, related), c.source) == LinksBut(LinkList(c, x, related), c.source)
  {
    var ms, d := Mentions(x), Later(c, after);
    var children := ChildSlugs(c, ms);
    PlanIsBrought(c, x, related, after);
    ChildSlugsAgain(c, ms, after);
    RefLinksAgree(c, children, x.references, after);
    RelatedLinksAgree(c, children + RefLinks(c, x.references), children + RefLinks(d, x.references), related, after);
  }

  lemma ChildrenAgain(c: Context, x: Extraction, related: seq<string>, after: Pages)
    requires AliasesKnown(c) && Applied(c.pages, Plan(c, x, related), after)
    ensures SameOps(ChildOps(c, Mentions(x)), ChildOps(Later(c, after), Mentions(x)))
  {
    var ms := Mentions(x);
    PlanIsBrought(c, x, related, after);
    forall m | m in ms
      ensures IsChildKind(m.kind)
    {
      MentionKinds(x, m);
    }
    assert ms[..|ms|] == ms;
    ChildOpsAgain(c, ms, |ms|, after);
  }

  /** Planning again once the plan is applied asks for the same pages, all as updates, with the same
      links but perhaps one from the source to itself. */
  lemma ReplayIsStable(c: Context, x: Extraction, related: seq<string>, after: Pages)
    requires AliasesKnown(c) && Applied(c.pages, Plan(c, x, related), after)
    ensures var ops, again := Plan(c, x, related), Plan(Later(c, after), x, related);
      && |again| == |ops| && (forall k | 1 <= k < |ops| :: again[k] == ops[k].(action := Update))
      && again[0] == ops[0].(action := Update, links := again[0].links)
      && Without(again[0].links, c.source) == Without(ops[0].links, c.source)
  {
    SourceLinksAgain(c, x, related, after);
    SourceAgain(c, x, related, after);
    ChildrenAgain(c, x, related, after);
  }

  lemma SourceAgain(c: Context, x: Extraction, related: seq<string>, after: Pages)
    requires Applied(c.pages, Plan(c, x, related), after)
    ensures var op, again := SourceOp(c, x, related), SourceOp(Later(c, after), x, related);
      again == op.(action := Update, links := again.links)
  {
    AppliedChildren(c, x, related, after, PageKey(Source, c.source));
  }

  // ---------------------------------------------------------------- the plan, read off the extraction

  /** The page a name stands for: the existing one it is an alias of, else the one of its own slug. */
  predicate LeadsTo(c: Context, name: string, s: string) {
    if name in c.aliases && c.aliases[name] in AllSlugs(c.pages) then s == c.aliases[name] else s == c.slugify(name)
  }

  /** The extracted names, entities first. */
  function NameCount(x: Extraction): nat {
    |x.entities| + |x.concepts|
  }

  function NamedAt(x: Extraction, n: nat): Named
    requires n < NameCount(x)
  {
    if n < |x.entities| then x.entities[n] else x.concepts[n - |x.entities|]
  }

  function KindAt(x: Extraction, n: nat): PageType {
    if n < |x.entities| then Entity else Concept
  }

  /** Where the source gets a link from: an extracted name, a reference or a related page. */
  datatype Spot = OfName(n: nat) | OfReference(n: nat) | OfRelated(n: nat)

  predicate LinksFrom(c: Context, x: Extraction, related: seq<string>, at: Spot, s: string) {
    match at
    case OfName(n) => n < NameCount(x) && LeadsTo(c, NamedAt(x, n).name, s)
    case OfReference(n) =>
      && n < |x.references| && c.slugify(x.references[n]) == s
      && (PageKey(Concept, s) in c.pages || PageKey(Entity, s) in c.pages || PageKey(Source, s) in c.pages)
    case OfRelated(n) => n < |related| && related[n] == s && s in AllSlugs(c.pages) && s != c.source
  }

  /** Names come before references, references before related pages. */
  predicate Earlier(a: Spot, b: Spot) {
    match a
    case OfName(n) => b.OfName? ==> n < b.n
    case OfReference(n) => !b.OfName? && (b.OfReference? ==> n < b.n)
    case OfRelated(n) => b.OfRelated? && n < b.n
  }

  /** The places of a list's entries: strictly one after the other, and none left out. */
  ghost predicate Spots(c: Context, x: Extraction, related: seq<string>, list: seq<string>, spots: seq<Spot>) {
    && |spots| == |list|
    && (forall p | 0 <= p < |list| :: LinksFrom(c, x, related, spots[p], list[p]))
    && (forall p, q | 0 <= p < q < |list| :: Earlier(spots[p], spots[q]))
  }

  ghost predicate Listed(spots: seq<Spot>, list: seq<string>, at: Spot, s: string) {
    |spots| == |list| && exists p | 0 <= p < |list| :: spots[p] == at && list[p] == s
  }

  lemma MentionAt(c: Context, x: Extraction, n: nat)
    requires n < NameCount(x)
    ensures |Mentions(x)| == NameCount(x) && Mentions(x)[n] == Mention(KindAt(x, n), NamedAt(x, n))
    ensures forall s :: LeadsTo(c, NamedAt(x, n).name, s) <==> s == c.SlugFor(NamedAt(x, n).name)
  {
  }

  lemma {:induction false} ChildSlugsAt(c: Context, ms: seq<Mention>, n: nat)
    requires n < |ms|
    ensures |ChildSlugs(c, ms)| == |ms| && ChildSlugs(c, ms)[n] == c.SlugFor(ms[n].named.name)
  {
    if |ms| > 1 {
      ChildSlugsAt(c, ms[..|ms| - 1], if n < |ms| - 1 then n else 0);
    }
  }

  lemma NameSpots(c: Context, x: Extraction, related: seq<string>) returns (spots: seq<Spot>)
    ensures Spots(c, x, related, ChildSlugs(c, Mentions(x)), spots)
    ensures forall p | 0 <= p < |spots| :: spots[p].OfName?
    ensures forall at: Spot, s | at.OfName? && LinksFrom(c, x, related, at, s) ::
      Listed(spots, ChildSlugs(c, Mentions(x)), at, s)
  {
    spots := seq(NameCount(x), n requires 0 <= n < NameCount(x) => OfName(n));
    var list := ChildSlugs(c, Mentions(x));
    assert |Mentions(x)| == NameCount(x);
    assert |list| == NameCount(x) by {
      if NameCount(x) > 0 {
        ChildSlugsAt(c, Mentions(x), 0);
      }
    }
    forall n: nat | n < NameCount(x)
      ensures LinksFrom(c, x, related, spots[n], list[n])
      ensures forall s | LinksFrom(c, x, related, OfName(n), s) :: spots[n] == OfName(n) && list[n] == s
    {
      MentionAt(c, x, n);
      ChildSlugsAt(c, Mentions(x), n);
    }
  }

  lemma {:induction false} ReferenceSpots(c: Context, x: Extraction, related: seq<string>, k: nat)
    returns (spots: seq<Spot>)
    requires k <= |x.references|
    ensures Spots(c, x, related, RefLinks(c, x.references[..k]), spots)
    ensures forall p | 0 <= p < |spots| :: spots[p].OfReference? && spots[p].n < k
    ensures forall at: Spot, s | at.OfReference? && at.n < k && LinksFrom(c, x, related, at, s) ::
      Listed(spots, RefLinks(c, x.references[..k]), at, s)
  {
    spots := [];
    if k > 0 {
      spots := ReferenceSpots(c, x, related, k - 1);
      assert x.references[..k][..k - 1] == x.references[..k - 1];
      ghost var before, slug := RefLinks(c, x.references[..k - 1]), c.slugify(x.references[k - 1]);
      if IsReference(c, slug) {
        ListedMore(spots, before, OfReference(k - 1), slug);
        spots := spots + [OfReference(k - 1)];
      }
    }
  }

  lemma {:induction false} RelatedSpots(c: Context, x: Extraction, related: seq<string>, k: nat)
    returns (spots: seq<Spot>)
    requires k <= |related|
    ensures Spots(c, x, related, RelatedLinks(c, related[..k]), spots)
    ensures forall p | 0 <= p < |spots| :: spots[p].OfRelated? && spots[p].n < k
    ensures forall at: Spot, s | at.OfRelated? && at.n < k && LinksFrom(c, x, related, at, s) ::
      Listed(spots, RelatedLinks(c, related[..k]), at, s)
  {
    spots := [];
    if k > 0 {
      spots := RelatedSpots(c, x, related, k - 1);
      assert related[..k][..k - 1] == related[..k - 1];
      ghost var before, slug := RelatedLinks(c, related[..k - 1]), related[k - 1];
      if c.Known(slug) && slug != c.source {
        ListedMore(spots, before, OfRelated(k - 1), slug);
        spots := spots + [OfRelated(k - 1)];
      }
    }
  }

  lemma ListedMore(spots: seq<Spot>, list: seq<string>, at: Spot, s: string)
    requires |spots| == |list|
    ensures Listed(spots + [at], list + [s], at, s)
    ensures forall b, y | Listed(spots, list, b, y) :: Listed(spots + [at], list + [s], b, y)
  {
    var spots', list' := spots + [at], list + [s];
    assert spots'[|spots|] == at && list'[|list|] == s;
    forall b, y | Listed(spots, list, b, y)
      ensures Listed(spots', list', b, y)
    {
      var p :| 0 <= p < |list| && spots[p] == b && list[p] == y;
      assert spots'[p] == b && list'[p] == y;
    }
  }

  lemma ListedInSum(s1: seq<Spot>, l1: seq<string>, s2: seq<Spot>, l2: seq<string>)
    requires |s1| == |l1| && |s2| == |l2|
    ensures forall at, s | Listed(s1, l1, at, s) || Listed(s2, l2, at, s) :: Listed(s1 + s2, l1 + l2, at, s)
  {
    forall at, s | Listed(s1, l1, at, s) || Listed(s2, l2, at, s)
      ensures Listed(s1 + s2, l1 + l2, at, s)
    {
      if p :| 0 <= p < |l1| && s1[p] == at && l1[p] == s {
        assert (s1 + s2)[p] == at && (l1 + l2)[p] == s;
      } else {
        var q :| 0 <= q < |l2| && s2[q] == at && l2[q] == s;
        assert (s1 + s2)[|s1| + q] == at && (l1 + l2)[|l1| + q] == s;
      }
    }
  }

  lemma SpotsSum(c: Context, x: Extraction, related: seq<string>, l1: seq<string>, s1: seq<Spot>, l2: seq<string>,
                 s2: seq<Spot>)
    requires Spots(c, x, related, l1, s1) && Spots(c, x, related, l2, s2)
    requires forall p, q | 0 <= p < |s1| && 0 <= q < |s2| :: Earlier(s1[p], s2[q])
    ensures Spots(c, x, related, l1 + l2, s1 + s2)
  {
    var spots, list := s1 + s2, l1 + l2;
    forall p | 0 <= p < |list|
      ensures LinksFrom(c, x, related, spots[p], list[p])
    {
      assert p >= |l1| ==> spots[p] == s2[p - |s1|] && list[p] == l2[p - |l1|];
    }
  }

  /** The whole link list of the source, repeats included, place by place. */
  lemma LinkSpots(c: Context, x: Extraction, related: seq<string>) returns (spots: seq<Spot>)
    ensures Spots(c, x, related, LinkList(c, x, related), spots)
    ensures forall at, s | LinksFrom(c, x, related, at, s) :: Listed(spots, LinkList(c, x, related), at, s)
  {
    var names := NameSpots(c, x, related);
    var refs := ReferenceSpots(c, x, related, |x.references|);
    var pages := RelatedSpots(c, x, related, |related|);
    assert x.references[..|x.references|] == x.references && related[..|related|] == related;
    var l1, l2, l3 := ChildSlugs(c, Mentions(x)), RefLinks(c, x.references), RelatedLinks(c, related);
    SpotsSum(c, x, related, l1, names, l2, refs);
    SpotsSum(c, x, related, l1 + l2, names + refs, l3, pages);
    ListedInSum(names, l1, refs, l2);
    ListedInSum(names + refs, l1 + l2, pages, l3);
    spots := names + refs + pages;
  }

  /** The source links to a slug exactly if an extracted name stands for it, a reference names it and it
      is a page other than an analysis, or it is a related page other than the source; each once. */
  lemma SourceLinksExact(c: Context, x: Extraction, related: seq<string>, s: string)
    ensures var links := Plan(c, x, related)[0].links;
      Distinct(links) && (s in links <==> exists at :: LinksFrom(c, x, related, at, s))
  {
    var spots := LinkSpots(c, x, related);
    var list := LinkList(c, x, related);
    if s in list {
      var p :| 0 <= p < |list| && list[p] == s;
      assert LinksFrom(c, x, related, spots[p], s);
    }
    if at :| LinksFrom(c, x, related, at, s) {
      assert Listed(spots, list, at, s);
    }
  }

  /** The links stand in the order in which names, references and related pages first ask for them. */
  lemma SourceLinksInOrder(c: Context, x: Extraction, related: seq<string>, i: nat, j: nat)
    requires i < j < |Plan(c, x, related)[0].links|
    ensures var links := Plan(c, x, related)[0].links;
      exists at :: LinksFrom(c, x, related, at, links[i])
        && forall b | LinksFrom(c, x, related, b, links[j]) :: Earlier(at, b)
  {
    var links, list := Plan(c, x, related)[0].links, LinkList(c, x, related);
    var spots := LinkSpots(c, x, related);
    DedupedOrder(list, i, j);
    var p :| 0 <= p < |list| && list[p] == links[i] && forall q | 0 <= q < |list| && list[q] == links[j] :: p < q;
    forall b | LinksFrom(c, x, related, b, links[j])
      ensures Earlier(spots[p], b)
    {
      assert Listed(spots, list, b, links[j]);
      var q :| 0 <= q < |list| && spots[q] == b && list[q] == links[j];
    }
    assert LinksFrom(c, x, related, spots[p], links[i]);
  }

  /** Name `n` may have a page of its own under that slug: it is not the source's, and no page of another
      type holds it. */
  predicate MayHave(c: Context, x: Extraction, n: nat, s: string) {
    && n < NameCount(x) && LeadsTo(c, NamedAt(x, n).name, s) && s != c.source
    && (s in AllSlugs(c.pages) ==> PageKey(KindAt(x, n), s) in c.pages)
  }

  /** Name `n` is the first that may have the page of this operation, and the operation says what the
      name does. */
  predicate PlannedFor(c: Context, x: Extraction, n: nat, op: PageOp) {
    && MayHave(c, x, n, op.slug) && (forall m: nat | m < n :: !MayHave(c, x, m, op.slug))
    && op.kind == KindAt(x, n)
    && var named, existing := NamedAt(x, n), PageKey(op.kind, op.slug) in c.pages;
    && op.title == named.name && op.description == named.description && op.links == [c.source]
    && (op.action == Update <==> existing) && (op.action == Create <==> !existing)
    && op.facts == (if named.description == "" then [] else [named.description])
    && op.aliases == (if op.slug == c.slugify(named.name) then [] else [named.name])
  }

  /** The first mentions that may have their pages, in order. */
  lemma {:induction false} FirstMentions(c: Context, ms: seq<Mention>) returns (at: seq<nat>)
    ensures |at| == |ChildOps(c, ms)| && forall k | 0 <= k < |at| :: IsFirstMention(c, ms, at[k], ChildOps(c, ms)[k])
    ensures forall j, k | 0 <= j < k < |at| :: at[j] < at[k]
  {
    at := [];
    if ms != [] {
      var front, n := ms[..|ms| - 1], |ms| - 1;
      at := FirstMentions(c, front);
      var before, slug := ChildOps(c, front), c.SlugFor(ms[n].named.name);
      forall k | 0 <= k < |at|
        ensures IsFirstMention(c, ms, at[k], before[k])
      {
        assert forall j | 0 <= j <= at[k] :: ms[j] == front[j];
      }
      if MayPlan(c, ms[n]) && slug !in SlugsOf(before) {
        PlannedIff(c, front, slug);
        assert forall j | 0 <= j < n :: ms[j] in front;
        at := at + [n];
      }
    }
  }

  predicate IsFirstMention(c: Context, ms: seq<Mention>, n: nat, op: PageOp) {
    && n < |ms| && MayPlan(c, ms[n]) && op == ChildOp(c, ms[n])
    && forall j | 0 <= j < n && MayPlan(c, ms[j]) :: c.SlugFor(ms[j].named.name) != op.slug
  }

  lemma FirstMentionIsPlanned(c: Context, x: Extraction, n: nat, op: PageOp)
    requires IsFirstMention(c, Mentions(x), n, op)
    ensures PlannedFor(c, x, n, op)
  {
    MentionAt(c, x, n);
    forall m: nat | m < n
      ensures !MayHave(c, x, m, op.slug)
    {
      MentionAt(c, x, m);
    }
  }

  /** The operations behind the source's are one for each slug some name may have, for the first such
      name, in the order of those names. */
  lemma ChildOpsExact(c: Context, x: Extraction, related: seq<string>) returns (at: seq<nat>)
    ensures |Plan(c, x, related)| == 1 + |at|
    ensures forall k | 0 <= k < |at| :: PlannedFor(c, x, at[k], Plan(c, x, related)[1 + k])
    ensures forall j, k | 0 <= j < k < |at| :: at[j] < at[k]
  {
    at := FirstMentions(c, Mentions(x));
    forall k | 0 <= k < |at|
      ensures PlannedFor(c, x, at[k], Plan(c, x, related)[1 + k])
    {
      FirstMentionIsPlanned(c, x, at[k], ChildOps(c, Mentions(x))[k]);
    }
  }

  /** No slug that some name may have is passed over. */
  lemma PlannedSlugsExact(c: Context, x: Extraction, related: seq<string>, s: string)
    ensures var ops := Plan(c, x, related);
      (exists k | 1 <= k < |ops| :: ops[k].slug == s) <==> exists n: nat :: MayHave(c, x, n, s)
  {
    var ops, ms := Plan(c, x, related), Mentions(x);
    PlannedIff(c, ms, s);
    assert forall k | 0 <= k < |ChildOps(c, ms)| :: ops[1 + k] == ChildOps(c, ms)[k];
    if n: nat :| MayHave(c, x, n, s) {
      MentionAt(c, x, n);
      assert ms[n] in ms;
      var k :| 0 <= k < |ChildOps(c, ms)| && ChildOps(c, ms)[k].slug == s;
      assert ops[1 + k].slug == s;
    }
    if k :| 1 <= k < |ops| && ops[k].slug == s {
      var at := ChildOpsExact(c, x, related);
      assert PlannedFor(c, x, at[k - 1], ops[1 + (k - 1)]);
    }
  }

  /** The operation of the source page. */
  lemma SourceOpExact(c: Context, x: Extraction, related: seq<string>)
    ensures var op, existing := Plan(c, x, related)[0], PageKey(Source, c.source) in c.pages;
      && op.kind == Source && op.slug == c.source && op.title == x.title && op.description == x.summary
      && (op.action == Update <==> existing) && (op.action == Create <==> !existing) && op.aliases == []
      && |op.facts| == 1 + |x.citations| && op.facts[0] == x.summary
      && forall k | 0 <= k < |x.citations| :: op.facts[1 + k] == "cites: " + x.citations[k]
  {
  }
}
