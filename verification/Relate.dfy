/** The hints that steer planning: related pages and aliases a model proposes, validated against the
    catalog of existing pages it was shown. */
module Relate {
  import opened Strings
  import opened Bundle

  /** A value of the model's answer: text, or anything else. */
  datatype Json = Text(s: string) | NotText

  datatype Hints = Hints(related: seq<string>, aliases: map<string, string>)

  const NoHints := Hints([], map[])

  /** The part of the catalog the model is shown. */
  const MaxCatalog := 150

  function SetOf(s: seq<string>): set<string> {
    set x | x in s
  }

  /** Slugs of the bundle other than the source's, each once, in directory order. */
  method ExistingCatalog(bundle: OkfBundle, exclude: string) returns (catalog: seq<string>)
    ensures Distinct(catalog) && SetOf(catalog) == AllSlugs(bundle.pages) - {exclude}
  {
    catalog := [];
    for i := 0 to |PageTypes|
      invariant Distinct(catalog) && SetOf(catalog) <= AllSlugs(bundle.pages) - {exclude}
      invariant forall j | 0 <= j < i :: SlugsOfType(bundle.pages, PageTypes[j]) - {exclude} <= SetOf(catalog)
    {
      var slugs := bundle.ListPages(PageTypes[i]);
      for j := 0 to |slugs|
        invariant Distinct(catalog) && SetOf(catalog) <= AllSlugs(bundle.pages) - {exclude}
        invariant forall m | 0 <= m < i :: SlugsOfType(bundle.pages, PageTypes[m]) - {exclude} <= SetOf(catalog)
        invariant forall m | 0 <= m < j :: slugs[m] == exclude || slugs[m] in SetOf(catalog)
      {
        assert slugs[j] in SlugsOfType(bundle.pages, PageTypes[i]) by {
          assert slugs[j] in (set x | x in slugs);
        }
        var page := bundle.ReadPage(PageTypes[i], slugs[j]);
        InType(bundle.pages, PageTypes[i], slugs[j]);
        if slugs[j] != exclude && page.Some? && slugs[j] !in catalog {
          catalog := catalog + [slugs[j]];
        }
      }
    }
    forall key | key in bundle.pages && key.slug != exclude
      ensures key.slug in SetOf(catalog)
    {
      var j := EveryTypeListed(key.kind);
      InType(bundle.pages, key.kind, key.slug);
      assert SlugsOfType(bundle.pages, PageTypes[j]) - {exclude} <= SetOf(catalog);
    }
  }

  /** The known texts of a list, in order, repeats included. */
  function KnownTexts(raw: seq<Json>, known: set<string>): seq<string> {
    if raw == [] then []
    else
      var before, v := KnownTexts(raw[..|raw| - 1], known), raw[|raw| - 1];
      if v.Text? && v.s in known then before + [v.s] else before
  }

  function KnownAliases(raw: map<string, Json>, known: set<string>): map<string, string> {
    map name | name in raw && raw[name].Text? && raw[name].s in known :: raw[name].s
  }

  /** What is kept of the first `i` entries. */
  function KeptTexts(related: seq<Json>, i: nat, known: set<string>): seq<string>
    requires i <= |related|
  {
    Deduped(KnownTexts(related[..i], known))
  }

  lemma KeptTextsStep(related: seq<Json>, i: nat, known: set<string>)
    requires i < |related|
    ensures var list, v := KeptTexts(related, i, known), related[i];
      KeptTexts(related, i + 1, known) == if v.Text? && v.s in known && v.s !in SetOf(list) then list + [v.s] else list
  {
    assert related[..i + 1][..i] == related[..i];
    var before := KnownTexts(related[..i], known);
    if related[i].Text? && related[i].s in known {
      assert (before + [related[i].s])[..|before|] == before;
    }
  }

  lemma SetOfMore(list: seq<string>, s: string)
    ensures SetOf(list + [s]) == SetOf(list) + {s}
  {
  }

  /** The hints are what an answer says of the pages shown: the related ones once each, in the order in
      which the answer first names them, and the aliases. */
  ghost predicate HintsExact(shown: set<string>, related: seq<Json>, aliases: Option<map<string, Json>>, hints: Hints) {
    && Distinct(hints.related)
    && (forall s :: s in hints.related <==> s in shown && Text(s) in related)
    && (forall i, j | 0 <= i < j < |hints.related| ::
         ComesFirst(related, Text(hints.related[i]), Text(hints.related[j])))
    && AliasesExact(shown, aliases, hints.aliases)
  }

  ghost predicate AliasesExact(shown: set<string>, aliases: Option<map<string, Json>>, kept: map<string, string>) {
    && (forall name :: name in kept <==>
          aliases.Some? && name in aliases.value && aliases.value[name].Text? && aliases.value[name].s in shown)
    && forall name | name in kept && aliases.Some? && name in aliases.value :: aliases.value[name] == Text(kept[name])
  }

  lemma {:induction false} KnownTextsExact(raw: seq<Json>, known: set<string>, s: string)
    ensures s in KnownTexts(raw, known) <==> s in known && Text(s) in raw
  {
    if raw != [] {
      KnownTextsExact(raw[..|raw| - 1], known, s);
      assert Text(s) in raw <==> Text(s) in raw[..|raw| - 1] || raw[|raw| - 1] == Text(s);
    }
  }

  lemma {:induction false} KnownTextsOrder(raw: seq<Json>, known: set<string>, a: string, b: string)
    requires ComesFirst(KnownTexts(raw, known), a, b) && b in known
    ensures ComesFirst(raw, Text(a), Text(b))
  {
    var front, kept := raw[..|raw| - 1], KnownTexts(raw[..|raw| - 1], known);
    assert raw == front + [raw[|raw| - 1]];
    if ComesFirst(kept, a, b) {
      KnownTextsOrder(front, known, a, b);
      FirstStays(front, raw[|raw| - 1], Text(a), Text(b));
    } else {
      FirstOfSum(kept, [raw[|raw| - 1].s], a, b);
      KnownTextsExact(front, known, b);
      LastIsFirst(front, Text(a), Text(b));
    }
  }

  lemma KnownHints(shown: set<string>, related: seq<Json>, aliases: Option<map<string, Json>>, hints: Hints)
    requires hints.related == Deduped(KnownTexts(related, shown))
    requires hints.aliases == if aliases.Some? then KnownAliases(aliases.value, shown) else map[]
    ensures HintsExact(shown, related, aliases, hints)
  {
    var texts := KnownTexts(related, shown);
    forall s
      ensures s in hints.related <==> s in shown && Text(s) in related
    {
      KnownTextsExact(related, shown, s);
    }
    forall i, j | 0 <= i < j < |hints.related|
      ensures ComesFirst(related, Text(hints.related[i]), Text(hints.related[j]))
    {
      DedupedOrder(texts, i, j);
      KnownTextsOrder(related, shown, hints.related[i], hints.related[j]);
    }
  }

  /** Keep of the answer only what points into the part of the catalog the model saw. */
  method RelateExisting(catalog: seq<string>, maxCatalog: nat, related: seq<Json>, aliases: Option<map<string, Json>>)
    returns (hints: Hints)
    ensures var known := SetOf(if |catalog| <= maxCatalog then catalog else catalog[..maxCatalog]);
      && hints.related == Deduped(KnownTexts(related, known))
      && hints.aliases == (if aliases.Some? then KnownAliases(aliases.value, known) else map[])
      && HintsExact(known, related, aliases, hints)
  {
    var items := if |catalog| <= maxCatalog then catalog else catalog[..maxCatalog];
    var known := SetOf(items);
    var list := KeepRelated(related, known);
    if aliases.Some? {
      var kept := KeepAliases(aliases.value, known);
      hints := Hints(list, kept);
    } else {
      hints := Hints(list, map[]);
    }
    KnownHints(known, related, aliases, hints);
  }

  method KeepRelated(related: seq<Json>, known: set<string>) returns (list: seq<string>)
    ensures list == Deduped(KnownTexts(related, known))
  {
    var seen := {};
    list := [];
    for i := 0 to |related|
      invariant list == KeptTexts(related, i, known) && seen == SetOf(list)
    {
      KeptTextsStep(related, i, known);
      if related[i].Text? && related[i].s in known && related[i].s !in seen {
        SetOfMore(list, related[i].s);
        seen := seen + {related[i].s};
        list := list + [related[i].s];
      }
    }
    assert related[..|related|] == related;
  }

  method KeepAliases(raw: map<string, Json>, known: set<string>) returns (kept: map<string, string>)
    ensures kept == KnownAliases(raw, known)
  {
    kept := map[];
    var todo := raw.Keys;
    while todo != {}
      invariant todo <= raw.Keys
      invariant kept == map name | name in KnownAliases(raw, known) && name !in todo :: raw[name].s
      decreases todo
    {
      var name :| name in todo;
      if raw[name].Text? && raw[name].s in known {
        kept := kept[name := raw[name].s];
      }
      todo := todo - {name};
    }
  }

  /** Every hint names a page of the bundle the catalog was taken from, never the source. */
  ghost predicate HintsFrom(b: Pages, source: string, hints: Hints) {
    && (forall s | s in hints.related :: s in AllSlugs(b) && s != source)
    && forall name | name in hints.aliases :: hints.aliases[name] in AllSlugs(b) && hints.aliases[name] != source
  }

  lemma {:induction false} KnownTextsKnown(raw: seq<Json>, known: set<string>)
    ensures forall s | s in KnownTexts(raw, known) :: s in known
  {
    if raw != [] {
      KnownTextsKnown(raw[..|raw| - 1], known);
    }
  }

  lemma ValidatedHints(b: Pages, source: string, known: set<string>, related: seq<Json>, aliases: map<string, Json>)
    requires known <= AllSlugs(b) - {source}
    ensures HintsFrom(b, source, Hints(Deduped(KnownTexts(related, known)), KnownAliases(aliases, known)))
  {
    KnownTextsKnown(related, known);
  }

  lemma {:induction false} SetOfSize(s: seq<string>)
    requires Distinct(s)
    ensures |SetOf(s)| == |s|
  {
    if s != [] {
      var front, last := s[..|s| - 1], s[|s| - 1];
      SetOfSize(front);
      SetOfMore(front, last);
      assert s == front + [last] && last !in SetOf(front);
    }
  }
}
