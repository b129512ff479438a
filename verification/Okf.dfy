/** Open Knowledge Format pages: frontmatter and body, and their Markdown text form. */
module Okf {
  import opened Strings

  /** Page types, each with a bundle directory of its own, in directory order. */
  datatype PageType = Source | Entity | Concept | Analysis

  /** A YAML value as far as frontmatter cares. */
  datatype Yaml = Null | Str(s: string) | List(items: seq<string>) | Other

  datatype Key = KType | KTitle | KDescription | KResource | KDomain | KTags | KAliases | KTimestamp
               | KCreated | KUpdated
               | KSources | KExtra(name: string)

  type Data = map<Key, Yaml>

  datatype Frontmatter = Frontmatter(kind: string, title: string, description: string, resource: Option<string>,
                                     domain: Option<string>, tags: seq<string>, aliases: seq<string>,
                                     timestamp: Option<string>,
                                     created: Option<string>, updated: Option<string>, sources: seq<string>,
                                     extra: map<string, Yaml>)

  datatype Page = Page(slug: string, frontmatter: Frontmatter, body: string)

  // ---------------------------------------------------------------- frontmatter as data

  function With(d: Data, k: Key, v: Option<string>): Data {
    if v.Some? then d[k := Str(v.value)] else d
  }

  function Required(fm: Frontmatter): Data {
    map[KType := Str(fm.kind), KTitle := Str(fm.title), KDescription := Str(fm.description),
        KTags := List(fm.tags), KAliases := List(fm.aliases), KSources := List(fm.sources)]
  }

  function Known(fm: Frontmatter): Data {
    With(With(With(With(With(Required(fm), KResource, fm.resource), KDomain, fm.domain), KTimestamp, fm.timestamp),
              KCreated, fm.created), KUpdated, fm.updated)
  }

  /** Keys outside the model; null values are dropped. */
  function Extras(fm: Frontmatter): Data {
    map k | k in fm.extra && fm.extra[k] != Null :: KExtra(k) := fm.extra[k]
  }

  /** `model_dump(exclude_none=True)`. */
  function Dump(fm: Frontmatter): Data {
    Known(fm) + Extras(fm)
  }

  function Text(d: Data, k: Key, default: string): Option<string> {
    if k !in d then Some(default) else if d[k].Str? then Some(d[k].s) else None
  }

  function Optional(d: Data, k: Key): Option<Option<string>> {
    if k !in d || d[k].Null? then Some(None) else if d[k].Str? then Some(Some(d[k].s)) else None
  }

  function Strs(d: Data, k: Key): Option<seq<string>> {
    if k !in d then Some([]) else if d[k].List? then Some(d[k].items) else None
  }

  function UnknownKeys(d: Data): map<string, Yaml> {
    map k | k in d && k.KExtra? :: k.name := d[k]
  }

  /** `OkfFrontmatter.model_validate(data)`: only type and title are required; unknown keys are kept. */
  function Validate(d: Data): Option<Frontmatter> {
    if KType !in d || KTitle !in d then None
    else
      var kind, title, description := Text(d, KType, ""), Text(d, KTitle, ""), Text(d, KDescription, "");
      var resource, domain, timestamp := Optional(d, KResource), Optional(d, KDomain), Optional(d, KTimestamp);
      var created, updated := Optional(d, KCreated), Optional(d, KUpdated);
      var tags, aliases, sources := Strs(d, KTags), Strs(d, KAliases), Strs(d, KSources);
      if kind.None? || title.None? || description.None? || resource.None? || domain.None? || timestamp.None?
         || created.None? || updated.None? || tags.None? || aliases.None? || sources.None? then None
      else
        Some(Frontmatter(kind.value, title.value, description.value, resource.value, domain.value,
                         tags.value, aliases.value,
                         timestamp.value, created.value, updated.value, sources.value, UnknownKeys(d)))
  }

  /** A null extra is dropped on output, so it does not come back. */
  predicate NoNullExtra(fm: Frontmatter) {
    forall k | k in fm.extra :: fm.extra[k] != Null
  }

  predicate Holds(d: Data, k: Key, v: Option<string>) {
    if v.Some? then k in d && d[k] == Str(v.value) else k !in d
  }

  /** The fields that are always there are not touched by the others. */
  lemma RequiredKept(fm: Frontmatter)
    ensures var d := Known(fm);
      && Holds(d, KType, Some(fm.kind)) && Holds(d, KTitle, Some(fm.title))
      && Holds(d, KDescription, Some(fm.description))
      && KTags in d && d[KTags] == List(fm.tags) && KAliases in d && d[KAliases] == List(fm.aliases)
      && KSources in d && d[KSources] == List(fm.sources)
  {
    RequiredFields(fm);
  }

  lemma OptionalFields(fm: Frontmatter)
    ensures var d := Known(fm);
      && Holds(d, KResource, fm.resource) && Holds(d, KDomain, fm.domain) && Holds(d, KTimestamp, fm.timestamp)
      && Holds(d, KCreated, fm.created) && Holds(d, KUpdated, fm.updated)
      && forall k | k in d :: !k.KExtra?
  {
    RequiredFields(fm);
  }

  lemma KnownFields(fm: Frontmatter)
    ensures var d := Known(fm);
      && Holds(d, KType, Some(fm.kind)) && Holds(d, KTitle, Some(fm.title))
      && Holds(d, KDescription, Some(fm.description))
      && Holds(d, KResource, fm.resource) && Holds(d, KDomain, fm.domain) && Holds(d, KTimestamp, fm.timestamp)
      && Holds(d, KCreated, fm.created) && Holds(d, KUpdated, fm.updated)
      && KTags in d && d[KTags] == List(fm.tags) && KAliases in d && d[KAliases] == List(fm.aliases)
      && KSources in d && d[KSources] == List(fm.sources)
      && forall k | k in d :: !k.KExtra?
  {
    RequiredKept(fm);
    OptionalFields(fm);
  }

  lemma RequiredFields(fm: Frontmatter)
    ensures var d := Required(fm);
      && d.Keys == {KType, KTitle, KDescription, KTags, KAliases, KSources}
      && d[KType] == Str(fm.kind) && d[KTitle] == Str(fm.title) && d[KDescription] == Str(fm.description)
      && d[KTags] == List(fm.tags) && d[KAliases] == List(fm.aliases) && d[KSources] == List(fm.sources)
  {
  }

  lemma ExtrasComeBack(fm: Frontmatter, known: Data)
    requires NoNullExtra(fm) && forall k | k in known :: !k.KExtra?
    ensures UnknownKeys(known + Extras(fm)) == fm.extra
  {
    var d := known + Extras(fm);
    var back := UnknownKeys(d);
    forall n
      ensures n in back <==> n in fm.extra
      ensures n in back ==> back[n] == fm.extra[n]
    {
      assert n in fm.extra <==> KExtra(n) in d;
    }
  }

  lemma ValidateFields(fm: Frontmatter, d: Data)
    requires Holds(d, KType, Some(fm.kind)) && Holds(d, KTitle, Some(fm.title))
        && Holds(d, KDescription, Some(fm.description))
    requires Holds(d, KResource, fm.resource) && Holds(d, KDomain, fm.domain) && Holds(d, KTimestamp, fm.timestamp)
    requires Holds(d, KCreated, fm.created) && Holds(d, KUpdated, fm.updated)
    requires KTags in d && d[KTags] == List(fm.tags) && KAliases in d && d[KAliases] == List(fm.aliases)
    requires KSources in d && d[KSources] == List(fm.sources)
    requires UnknownKeys(d) == fm.extra
    ensures Validate(d) == Some(fm)
  {
  }

  lemma HoldsInSum(known: Data, extras: Data, k: Key, v: Option<string>)
    requires Holds(known, k, v) && k !in extras
    ensures Holds(known + extras, k, v)
  {
  }

  /** Validating the dumped data gives the frontmatter back exactly when no extra key is null. */
  lemma ValidateDump(fm: Frontmatter)
    ensures Validate(Dump(fm)) == Some(fm) <==> NoNullExtra(fm)
  {
    KnownFields(fm);
    if NoNullExtra(fm) {
      ExtrasComeBack(fm, Known(fm));
      FieldsComeBack(fm, Known(fm), Extras(fm));
    } else {
      NullExtraLost(fm, Known(fm));
    }
  }

  lemma NullExtraLost(fm: Frontmatter, known: Data)
    requires !NoNullExtra(fm) && forall k | k in known :: !k.KExtra?
    ensures UnknownKeys(known + Extras(fm)) != fm.extra
  {
    var n :| n in fm.extra && fm.extra[n] == Null;
    assert KExtra(n) !in known + Extras(fm);
    assert n !in UnknownKeys(known + Extras(fm));
  }

  lemma FieldsComeBack(fm: Frontmatter, known: Data, extras: Data)
    requires Holds(known, KType, Some(fm.kind)) && Holds(known, KTitle, Some(fm.title))
    requires Holds(known, KDescription, Some(fm.description)) && Holds(known, KResource, fm.resource)
    requires Holds(known, KDomain, fm.domain) && Holds(known, KTimestamp, fm.timestamp)
    requires Holds(known, KCreated, fm.created) && Holds(known, KUpdated, fm.updated)
    requires KTags in known && known[KTags] == List(fm.tags) && KAliases in known && known[KAliases] == List(fm.aliases)
    requires KSources in known && known[KSources] == List(fm.sources)
    requires forall k | k in extras :: k.KExtra?
    requires UnknownKeys(known + extras) == fm.extra
    ensures Validate(known + extras) == Some(fm)
  {
    HoldsInSum(known, extras, KType, Some(fm.kind));
    HoldsInSum(known, extras, KTitle, Some(fm.title));
    HoldsInSum(known, extras, KDescription, Some(fm.description));
    HoldsInSum(known, extras, KResource, fm.resource);
    HoldsInSum(known, extras, KDomain, fm.domain);
    HoldsInSum(known, extras, KTimestamp, fm.timestamp);
    HoldsInSum(known, extras, KCreated, fm.created);
    HoldsInSum(known, extras, KUpdated, fm.updated);
    ValidateFields(fm, known + extras);
  }

  // ---------------------------------------------------------------- text form

  /** The YAML library: text for data, and data for text that is YAML. */
  datatype Codec = Codec(dump: Data -> string, load: string -> Option<Data>)

  datatype ParseError = MissingFrontmatter | BadYaml | BadFrontmatter

  function Head(c: Codec, fm: Frontmatter): string {
    Strip(c.dump(Dump(fm)))
  }

  function Serialize(c: Codec, page: Page): string {
    ("---\n" + Head(c, page.frontmatter) + "\n---") + ("\n\n" + (Strip(page.body) + "\n"))
  }

  const Fence := "\n---"

  /** The greatest newline `k < w` behind which a closing fence follows, and where that fence is: the
      match of `^---\s*\n(.*?)\n---` when white space runs from offset 3 to `w`. */
  function FindFence(s: string, w: nat): (r: Option<(nat, nat)>)
    requires 3 <= w <= |s|
    ensures r.Some? ==> r.value.0 < r.value.1 <= |s| - |Fence| && OccursAt(s, Fence, r.value.1)
  {
    if w == 3 then None
    else if s[w - 1] == '\n' && Find(s, Fence, w).Some? then Some((w - 1, Find(s, Fence, w).value))
    else FindFence(s, w - 1)
  }

  function Parse(c: Codec, text: string, slug: string): Result<Page, ParseError> {
    var s := LStrip(text);
    if !OccursAt(s, "---", 0) then Err(MissingFrontmatter)
    else
      match FindFence(s, SpaceEnd(s, 3))
      case None => Err(MissingFrontmatter)
      case Some((k, j)) => PageOf(c.load(s[k + 1..j]), Strip(s[SpaceEnd(s, j + |Fence|)..]), slug)
  }

  /** The page of what the frontmatter was loaded as. */
  function PageOf(loaded: Option<Data>, body: string, slug: string): Result<Page, ParseError> {
    match loaded
    case None => Err(BadYaml)
    case Some(data) =>
      match Validate(data)
      case None => Err(BadFrontmatter)
      case Some(fm) => Ok(Page(slug, fm, body))
  }

  // ---------------------------------------------------------------- round trip

  /** What PyYAML's block style gives: text that loads back, is not blank, and in which no line after
      the first starts with three dashes. */
  ghost predicate Faithful(c: Codec, fm: Frontmatter) {
    && c.load(Head(c, fm)) == Some(Dump(fm))
    && Head(c, fm) != "" && !Contains(Head(c, fm), Fence)
  }

  /** In `---`, newline, head, fence, tail the first fence after the newline is the one behind the head. */
  lemma FenceBehindHead(head: string, tail: string, s: string)
    requires head != "" && Stripped(head) && !Contains(head, Fence)
    requires s == ("---\n" + head + Fence) + tail
    ensures |s| >= 4 && SpaceEnd(s, 3) == 4 && FindFence(s, 4) == Some((3, 4 + |head|))
    ensures 4 + |head| + |Fence| <= |s| && s[4..4 + |head|] == head
  {
    assert s[3] == '\n' && s[4] == head[0];
    assert IsSpace('\n');
    SpaceEndIs(s, 3, 4);
    forall i | 4 <= i < 4 + |head|
      ensures !OccursAt(s, Fence, i)
    {
      NoFenceAt(head, tail, s, i);
    }
    assert s[4 + |head|..4 + |head| + |Fence|] == Fence;
    assert OccursAt(s, Fence, 4 + |head|);
  }

  lemma NoFenceAt(head: string, tail: string, s: string, i: nat)
    requires s == ("---\n" + head + Fence) + tail && 4 <= i < 4 + |head| && !Contains(head, Fence)
    ensures !OccursAt(s, Fence, i)
  {
    if i + |Fence| <= 4 + |head| {
      assert s[i..i + |Fence|] == head[i - 4..i - 4 + |Fence|];
      assert !OccursAt(head, Fence, i - 4);
    } else if i + |Fence| <= |s| {
      var n := 4 + |head| - i;
      assert s[i..i + |Fence|][n] == s[4 + |head|] == '\n';
      assert Fence[n] != '\n';
    }
  }

  /** The body of a serialized page comes back stripped. */
  lemma BodyComesBack(front: string, body: string, s: string)
    requires Stripped(body) && s == front + ("\n\n" + (body + "\n"))
    ensures |front| <= |s| && Strip(s[SpaceEnd(s, |front|)..]) == body
  {
    var tail := "\n\n" + (body + "\n");
    assert s[|front|..] == tail;
    StripSkips(s, |front|);
    StripBlankLines(body, tail);
  }

  lemma StripBlankLines(body: string, tail: string)
    requires Stripped(body) && tail == "\n\n" + (body + "\n")
    ensures Strip(tail) == body
  {
    assert IsSpace('\n');
    StripUnique(tail, "\n\n", body, "\n");
  }

  /** Parsing the text of a page gives its frontmatter and its stripped body, whatever rules of
      dashes the body holds; only null extra keys are lost. */
  lemma ParseSerialize(c: Codec, page: Page)
    requires Faithful(c, page.frontmatter)
    ensures Parse(c, Serialize(c, page), page.slug) == Ok(page.(body := Strip(page.body)))
        <==> NoNullExtra(page.frontmatter)
  {
    var head, body, s := Head(c, page.frontmatter), Strip(page.body), Serialize(c, page);
    var _, _ := StripSplits(c.dump(Dump(page.frontmatter)));
    var _, _ := StripSplits(page.body);
    SerializedShape(head, body, s);
    ValidateDump(page.frontmatter);
  }

  /** How the parser cuts up a serialized page. */
  lemma SerializedShape(head: string, body: string, s: string)
    requires head != "" && Stripped(head) && !Contains(head, Fence) && Stripped(body)
    requires s == ("---\n" + head + Fence) + ("\n\n" + (body + "\n"))
    ensures LStrip(s) == s && OccursAt(s, "---", 0) && SpaceEnd(s, 3) == 4 <= |s|
    ensures FindFence(s, 4) == Some((3, 4 + |head|)) && s[4..4 + |head|] == head
    ensures Strip(s[SpaceEnd(s, 4 + |head| + |Fence|)..]) == body
  {
    StartsWithDash(s);
    FenceBehindHead(head, "\n\n" + (body + "\n"), s);
    BodyComesBack("---\n" + head + Fence, body, s);
  }

  lemma StartsWithDash(s: string)
    requires |s| >= 3 && s[0] == '-' && s[1] == '-' && s[2] == '-'
    ensures LStrip(s) == s && OccursAt(s, "---", 0)
  {
    assert SpaceEnd(s, 0) == 0;
    assert s[0..3] == "---";
  }

  /** Serializing what was parsed gives the same text again. */
  lemma SerializeIsFixedPoint(c: Codec, page: Page)
    requires Faithful(c, page.frontmatter) && NoNullExtra(page.frontmatter)
    ensures Parse(c, Serialize(c, page), page.slug).Ok?
    ensures Serialize(c, Parse(c, Serialize(c, page), page.slug).ok) == Serialize(c, page)
  {
    ParseSerialize(c, page);
    var _, _ := StripSplits(page.body);
    StripOfStripped(Strip(page.body));
  }

  // ---------------------------------------------------------------- what parses

  predicate IsText(d: Data, k: Key) {
    k in d && d[k].Str?
  }

  /** All that is asked of the data: type and title are there, and no key of the model has a value of the
      wrong kind. */
  predicate WellTyped(d: Data) {
    && IsText(d, KType) && IsText(d, KTitle) && (KDescription in d ==> d[KDescription].Str?)
    && (forall k | k in {KResource, KDomain, KTimestamp, KCreated, KUpdated} && k in d :: d[k].Null? || d[k].Str?)
    && forall k | k in {KTags, KAliases, KSources} && k in d :: d[k].List?
  }

  /** A field is the text of its key, or missing. */
  predicate ReadsAs(d: Data, k: Key, v: Option<string>) {
    v == if IsText(d, k) then Some(d[k].s) else None
  }

  predicate ListsAs(d: Data, k: Key, v: seq<string>) {
    v == if k in d && d[k].List? then d[k].items else []
  }

  /** Data validates exactly if it is so typed, and then field by field; what is missing is empty. */
  lemma ValidateExact(d: Data)
    ensures Validate(d).Some? <==> WellTyped(d)
    ensures Validate(d).Some? ==> var fm := Validate(d).value;
      && ReadsAs(d, KType, Some(fm.kind)) && ReadsAs(d, KTitle, Some(fm.title))
      && fm.description == (if IsText(d, KDescription) then d[KDescription].s else "")
      && ReadsAs(d, KResource, fm.resource) && ReadsAs(d, KDomain, fm.domain) && ReadsAs(d, KTimestamp, fm.timestamp)
      && ReadsAs(d, KCreated, fm.created) && ReadsAs(d, KUpdated, fm.updated)
      && ListsAs(d, KTags, fm.tags) && ListsAs(d, KAliases, fm.aliases) && ListsAs(d, KSources, fm.sources)
      && forall n :: n in fm.extra <==> KExtra(n) in d && (n in fm.extra ==> fm.extra[n] == d[KExtra(n)])
  {
    assert forall n :: n in UnknownKeys(d) <==> KExtra(n) in d;
  }

  /** A match of the pattern: three dashes, white space up to a newline at `k`, and a newline with three
      dashes at `j` behind it. */
  predicate FenceAt(s: string, k: nat, j: nat) {
    && OccursAt(s, "---", 0) && 3 <= k < j && k < |s| && s[k] == '\n' && AllSpace(s[3..k]) && OccursAt(s, Fence, j)
  }

  ghost predicate IsFence(s: string, k: nat, j: nat) {
    && FenceAt(s, k, j) && (forall i: nat | FenceAt(s, k, i) :: j <= i)
    && forall n: nat, i: nat | FenceAt(s, n, i) :: n <= k
  }

  lemma {:induction false} FindFenceFrom(s: string, w: nat)
    requires OccursAt(s, "---", 0) && 3 <= w <= |s| && forall i | 3 <= i < w :: IsSpace(s[i])
    ensures FindFence(s, w).Some? ==> IsFenceBelow(s, w, FindFence(s, w).value.0, FindFence(s, w).value.1)
    ensures FindFence(s, w).None? ==> forall n: nat, i: nat | FenceAt(s, n, i) :: n >= w
  {
    if w > 3 {
      if s[w - 1] == '\n' && Find(s, Fence, w).Some? {
        AllSpaceBetween(s, 3, w - 1);
      } else {
        FindFenceFrom(s, w - 1);
      }
    }
  }

  ghost predicate IsFenceBelow(s: string, w: nat, k: nat, j: nat) {
    && FenceAt(s, k, j) && k < w && (forall i: nat | FenceAt(s, k, i) :: j <= i)
    && forall n: nat, i: nat | FenceAt(s, n, i) && n < w :: n <= k
  }

  lemma SpaceEndBeyond(s: string, i: nat, k: nat)
    requires i <= k < |s| && forall x | i <= x <= k :: IsSpace(s[x])
    ensures k < SpaceEnd(s, i)
    decreases k - i
  {
    if i < k {
      SpaceEndBeyond(s, i + 1, k);
    }
  }

  lemma FenceInRun(s: string, k: nat, j: nat)
    requires FenceAt(s, k, j)
    ensures 3 <= |s| && k < SpaceEnd(s, 3)
  {
    forall x | 3 <= x <= k
      ensures IsSpace(s[x])
    {
      assert x < k ==> s[3..k][x - 3] == s[x];
    }
    SpaceEndBeyond(s, 3, k);
  }

  /** The parser cuts at the last newline of the white space behind the dashes that has a fence behind it,
      and at the first such fence. */
  lemma FenceExact(s: string)
    requires OccursAt(s, "---", 0)
    ensures FindFence(s, SpaceEnd(s, 3)).Some? <==> exists k: nat, j: nat :: FenceAt(s, k, j)
    ensures FindFence(s, SpaceEnd(s, 3)).Some? ==>
      IsFence(s, FindFence(s, SpaceEnd(s, 3)).value.0, FindFence(s, SpaceEnd(s, 3)).value.1)
  {
    var w := SpaceEnd(s, 3);
    FindFenceFrom(s, w);
    forall k: nat, j: nat | FenceAt(s, k, j)
      ensures k < w
    {
      FenceInRun(s, k, j);
    }
  }

  /** A text without such a match is no page. */
  lemma MissingIff(c: Codec, text: string, slug: string)
    ensures Parse(c, text, slug) == Err(MissingFrontmatter) <==>
      forall k: nat, j: nat :: !FenceAt(LStrip(text), k, j)
  {
    var s := LStrip(text);
    if OccursAt(s, "---", 0) {
      FenceExact(s);
      if FindFence(s, SpaceEnd(s, 3)).None? {
        assert forall k: nat, j: nat :: !FenceAt(s, k, j);
      }
    }
  }

  /** What was not loaded is no YAML, what is not well typed no frontmatter; the rest is a page. */
  lemma PageOfExact(loaded: Option<Data>, body: string, slug: string)
    ensures var r := PageOf(loaded, body, slug);
      && (r == Err(BadYaml) <==> loaded == None)
      && (r == Err(BadFrontmatter) <==> loaded.Some? && !WellTyped(loaded.value))
      && (r.Ok? <==> loaded.Some? && WellTyped(loaded.value))
      && (r.Ok? ==> r.ok.slug == slug && r.ok.body == body && Some(r.ok.frontmatter) == Validate(loaded.value))
  {
    if loaded.Some? {
      ValidateExact(loaded.value);
    }
  }
}
