/** The page bundle: one page per type and slug. */
module Bundle {
  import opened Strings
  import opened Okf

  datatype PageKey = PageKey(kind: PageType, slug: string)

  type Pages = map<PageKey, Page>

  /** Directory order. */
  const PageTypes: seq<PageType> := [Source, Entity, Concept, Analysis]

  /** A page file is named after its slug. */
  predicate WellFormed(b: Pages) {
    forall k | k in b :: b[k].slug == k.slug
  }

  function SlugsOfType(b: Pages, kind: PageType): set<string> {
    set k | k in b && k.kind == kind :: k.slug
  }

  function AllSlugs(b: Pages): set<string> {
    set k | k in b :: k.slug
  }

  /** The first directory, in directory order, that holds the slug. */
  function FirstType(b: Pages, slug: string): Option<PageType> {
    if PageKey(Source, slug) in b then Some(Source)
    else if PageKey(Entity, slug) in b then Some(Entity)
    else if PageKey(Concept, slug) in b then Some(Concept)
    else if PageKey(Analysis, slug) in b then Some(Analysis)
    else None
  }

  lemma InType(b: Pages, kind: PageType, slug: string)
    ensures slug in SlugsOfType(b, kind) <==> PageKey(kind, slug) in b
  {
    if k :| k in b && k.kind == kind && k.slug == slug {
      assert k == PageKey(kind, slug);
    }
  }

  /** The type every earlier directory leaves to a slug is its first type. */
  lemma FirstTypeAt(b: Pages, i: nat, slug: string)
    requires i < |PageTypes| && PageKey(PageTypes[i], slug) in b
    requires forall j | 0 <= j < i :: slug !in SlugsOfType(b, PageTypes[j])
    ensures FirstType(b, slug) == Some(PageTypes[i])
  {
    forall j | 0 <= j < i
      ensures PageKey(PageTypes[j], slug) !in b
    {
      InType(b, PageTypes[j], slug);
    }
    assert i > 0 ==> PageKey(PageTypes[0], slug) !in b;
    assert i > 1 ==> PageKey(PageTypes[1], slug) !in b;
    assert i > 2 ==> PageKey(PageTypes[2], slug) !in b;
  }

  lemma EveryTypeListed(kind: PageType) returns (i: nat)
    ensures i < |PageTypes| && PageTypes[i] == kind
  {
    i := match kind case Source => 0 case Entity => 1 case Concept => 2 case Analysis => 3;
  }

  lemma FirstTypeExact(b: Pages, slug: string)
    ensures FirstType(b, slug).Some? <==> slug in AllSlugs(b)
    ensures FirstType(b, slug).Some? ==> PageKey(FirstType(b, slug).value, slug) in b
  {
    if k :| k in b && k.slug == slug {
      assert k == PageKey(k.kind, slug);
      match k.kind
      case Source =>
      case Entity =>
      case Concept =>
      case Analysis =>
    }
  }

  class OkfBundle {
    var pages: Pages

    /** The slugs of one directory, in some order. */
    method ListPages(kind: PageType) returns (slugs: seq<string>)
      ensures (set x | x in slugs) == SlugsOfType(pages, kind)
    {
      var todo := SlugsOfType(pages, kind);
      slugs := [];
      while todo != {}
        invariant (set x | x in slugs) + todo == SlugsOfType(pages, kind)
        decreases todo
      {
        var x :| x in todo;
        slugs := slugs + [x];
        todo := todo - {x};
      }
    }

    method ReadPage(kind: PageType, slug: string) returns (page: Option<Page>)
      ensures page == if PageKey(kind, slug) in pages then Some(pages[PageKey(kind, slug)]) else None
    {
      if PageKey(kind, slug) in pages {
        page := Some(pages[PageKey(kind, slug)]);
      } else {
        page := None;
      }
    }

    /** A page read back later has its body stripped. */
    method WritePage(kind: PageType, page: Page)
      modifies this
      ensures pages == old(pages)[PageKey(kind, page.slug) := page.(body := Strip(page.body))]
    {
      pages := pages[PageKey(kind, page.slug) := page.(body := Strip(page.body))];
    }
  }
}
