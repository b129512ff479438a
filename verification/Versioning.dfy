/** Version numbering and the live pointer: the legacy upsert, and soft archiving. */
module Versioning {
  import opened Strings
  import opened Okf
  import opened Store

  /** The gate's decision; anything unknown counts as a request for review. */
  datatype Decision = Publish | Review | Reject | OtherDecision(name: string)

  function VersionStatusFor(d: Decision): VersionStatus {
    match d
    case Publish => Published
    case Reject => Rejected
    case _ => PendingReview
  }

  /** The greatest version number of an item, 0 without versions. */
  function MaxNumber(versions: seq<Version>, slug: string): nat {
    if versions == [] then 0
    else
      var m, v := MaxNumber(versions[..|versions| - 1], slug), versions[|versions| - 1];
      if v.item == slug && v.number > m then v.number else m
  }

  function NewItem(title: string): Item {
    Item(title, Draft, Source, None, None, None)
  }

  /** The item row an upsert leaves behind. */
  function UpsertedItem(item: Item, title: string, d: Decision, version: nat): Item {
    if d == Publish then item.(current := Some(version), status := Live, title := title)
    else if item.current.None? then item.(title := title)
    else item
  }

  /** Find or create the item (an explicit target wins over the slug), append a version, and touch the
      live item only when publishing. */
  function Upserted(db: Db, slug: string, title: string, body: string, target: Option<string>, d: Decision): Db {
    var key := if target.Some? then target.value else slug;
    var item := if key in db.items then db.items[key] else NewItem(title);
    var row := Version(key, MaxNumber(db.versions, key) + 1, VersionStatusFor(d), title, body);
    db.(items := db.items[key := UpsertedItem(item, title, d, |db.versions|)], versions := db.versions + [row])
  }

  method UpsertItemVersion(s: Session, slug: string, title: string, body: string, target: Option<string>, d: Decision)
    returns (version: nat)
    requires target.Some? ==> target.value in s.items
    modifies s
    ensures s.View() == Upserted(old(s.View()), slug, title, body, target, d)
    ensures version == |old(s.versions)|
  {
    var key := slug;
    if target.Some? {
      key := target.value;
    }
    if key !in s.items {
      s.items := s.items[key := NewItem(title)];
    }
    var isLive := s.items[key].current.Some?;
    var number := MaxNumber(s.versions, key) + 1;
    version := |s.versions|;
    s.versions := s.versions + [Version(key, number, VersionStatusFor(d), title, body)];
    if d == Publish {
      s.items := s.items[key := s.items[key].(current := Some(version), status := Live, title := title)];
    } else if !isLive {
      s.items := s.items[key := s.items[key].(title := title)];
    }
    assert s.items == Upserted(old(s.View()), slug, title, body, target, d).items;
  }

  predicate Touches(l: WikiLink, slug: string) {
    l.source == slug || l.target == slug
  }

  /** Archiving keeps the row, its versions and its chunks, and detaches it from the graph. */
  function ArchivedDb(db: Db, slug: string): Db
    requires slug in db.items
  {
    db.(items := db.items[slug := db.items[slug].(status := Archived)],
        links := set l | l in db.links && !Touches(l, slug))
  }

  method ArchiveItem(s: Session, slug: string)
    requires slug in s.items
    modifies s
    ensures s.View() == ArchivedDb(old(s.View()), slug)
  {
    s.items := s.items[slug := s.items[slug].(status := Archived)];
    s.links := set l | l in s.links && l.source != slug && l.target != slug;
    assert s.links == ArchivedDb(old(s.View()), slug).links;
  }

  // ---------------------------------------------------------------- the lifecycle invariant

  function CountOf(versions: seq<Version>, slug: string): nat {
    if versions == [] then 0
    else CountOf(versions[..|versions| - 1], slug) + if versions[|versions| - 1].item == slug then 1 else 0
  }

  /** Row `k` carries the next number of its item. */
  predicate NumberedAt(versions: seq<Version>, k: nat) {
    k < |versions| ==> versions[k].number == CountOf(versions[..k], versions[k].item) + 1
  }

  /** `v` is the item's published version with the highest number, and carries the item's title. */
  predicate IsLiveVersion(versions: seq<Version>, slug: string, title: string, v: nat) {
    && v < |versions| && versions[v].item == slug && versions[v].status == Published && versions[v].title == title
    && forall k | 0 <= k < |versions| && versions[k].item == slug && versions[k].status == Published ::
         versions[k].number <= versions[v].number
  }

  predicate NeverPublished(versions: seq<Version>, slug: string) {
    forall k | 0 <= k < |versions| && versions[k].item == slug :: versions[k].status != Published
  }

  predicate PointerOk(db: Db, slug: string)
    requires slug in db.items
  {
    var item := db.items[slug];
    if item.current.Some? then IsLiveVersion(db.versions, slug, item.title, item.current.value)
    else NeverPublished(db.versions, slug)
  }

  predicate HasItem(db: Db, k: nat) {
    k < |db.versions| ==> db.versions[k].item in db.items
  }

  ghost predicate Lifecycle(db: Db) {
    && (forall k: nat :: NumberedAt(db.versions, k))
    && (forall slug | slug in db.items :: PointerOk(db, slug))
    && (forall k: nat :: HasItem(db, k))
  }

  /** With the invariant the greatest number is the number of versions. */
  lemma {:induction false} MaxIsCount(versions: seq<Version>, slug: string)
    requires forall k: nat :: NumberedAt(versions, k)
    ensures MaxNumber(versions, slug) == CountOf(versions, slug)
  {
    if versions != [] {
      var front := versions[..|versions| - 1];
      NumberedPrefix(versions, |front|);
      MaxIsCount(front, slug);
      assert NumberedAt(versions, |front|);
    }
  }

  lemma NumberedPrefix(versions: seq<Version>, n: nat)
    requires n <= |versions| && forall k: nat :: NumberedAt(versions, k)
    ensures forall k: nat :: NumberedAt(versions[..n], k)
  {
    var front := versions[..n];
    forall k: nat
      ensures NumberedAt(front, k)
    {
      assert NumberedAt(versions, k);
      assert k < n ==> front[..k] == versions[..k];
    }
  }

  lemma {:induction false} CountMonotone(versions: seq<Version>, slug: string, n: nat)
    requires n <= |versions|
    ensures CountOf(versions[..n], slug) <= CountOf(versions, slug)
  {
    if n == |versions| {
      assert versions[..n] == versions;
    } else {
      CountMonotone(versions[..|versions| - 1], slug, n);
      assert versions[..|versions| - 1][..n] == versions[..n];
    }
  }

  predicate IsNumber(versions: seq<Version>, slug: string, n: nat) {
    exists k | 0 <= k < |versions| :: versions[k].item == slug && versions[k].number == n
  }

  /** An item's version numbers are exactly 1..n. */
  lemma {:induction false} NumbersAreOneToN(versions: seq<Version>, slug: string, n: nat)
    requires forall k: nat :: NumberedAt(versions, k)
    ensures IsNumber(versions, slug, n) <==> 1 <= n <= CountOf(versions, slug)
  {
    if versions != [] {
      var front, last := versions[..|versions| - 1], versions[|versions| - 1];
      NumberedPrefix(versions, |front|);
      NumbersAreOneToN(front, slug, n);
      assert NumberedAt(versions, |front|);
      if IsNumber(front, slug, n) {
        var k :| 0 <= k < |front| && front[k].item == slug && front[k].number == n;
        assert versions[k].item == slug && versions[k].number == n;
      }
      if last.item == slug && last.number == n {
        assert versions[|front|].item == slug;
      }
    }
  }

  /** No two versions of an item share a number. */
  lemma NumbersDiffer(versions: seq<Version>, j: nat, k: nat)
    requires forall i: nat :: NumberedAt(versions, i)
    requires j < k < |versions| && versions[j].item == versions[k].item
    ensures versions[j].number < versions[k].number
  {
    assert NumberedAt(versions, j) && NumberedAt(versions, k);
    CountMonotone(versions[..k], versions[j].item, j + 1);
    assert versions[..k][..j + 1] == versions[..j + 1];
    assert versions[..j + 1][..j] == versions[..j];
  }

  /** Appending one properly numbered version and letting the item follow it keeps the invariant. */
  lemma AppendKeepsLifecycle(db: Db, slug: string, item: Item, row: Version)
    requires Lifecycle(db) && row.item == slug && row.number == MaxNumber(db.versions, slug) + 1
    requires if row.status == Published then item.current == Some(|db.versions|) && item.title == row.title
             else if slug in db.items then item.current == db.items[slug].current
               && (item.current.Some? ==> item.title == db.items[slug].title)
             else item.current == None
    ensures Lifecycle(db.(items := db.items[slug := item], versions := db.versions + [row]))
  {
    var db' := db.(items := db.items[slug := item], versions := db.versions + [row]);
    var n := |db.versions|;
    MaxIsCount(db.versions, slug);
    forall k: nat
      ensures NumberedAt(db'.versions, k)
    {
      assert NumberedAt(db.versions, k);
      assert k <= n ==> db'.versions[..k] == db.versions[..k];
      assert db.versions[..n] == db.versions;
    }
    forall k: nat
      ensures HasItem(db', k)
    {
      assert HasItem(db, k);
    }
    forall s | s in db'.items
      ensures PointerOk(db', s)
    {
      assert s in db.items ==> PointerOk(db, s);
      if s == slug {
        NewestIsHighest(db, slug);
        FreshHasNone(db, slug);
      }
    }
  }

  lemma NewestIsHighest(db: Db, slug: string)
    requires Lifecycle(db)
    ensures forall k | 0 <= k < |db.versions|
        && db.versions[k].item == slug :: db.versions[k].number <= MaxNumber(db.versions, slug)
  {
    MaxIsCount(db.versions, slug);
    forall k | 0 <= k < |db.versions| && db.versions[k].item == slug
      ensures db.versions[k].number <= CountOf(db.versions, slug)
    {
      NumbersAreOneToN(db.versions, slug, db.versions[k].number);
    }
  }

  lemma FreshHasNone(db: Db, slug: string)
    requires Lifecycle(db)
    ensures slug !in db.items ==> NeverPublished(db.versions, slug)
  {
    if slug !in db.items {
      forall k | 0 <= k < |db.versions|
        ensures db.versions[k].item != slug
      {
        assert HasItem(db, k);
      }
    }
  }

  lemma UpsertKeepsLifecycle(db: Db, slug: string, title: string, body: string, target: Option<string>, d: Decision)
    requires Lifecycle(db)
    ensures Lifecycle(Upserted(db, slug, title, body, target, d))
  {
    var key := if target.Some? then target.value else slug;
    var item := if key in db.items then db.items[key] else NewItem(title);
    var row := Version(key, MaxNumber(db.versions, key) + 1, VersionStatusFor(d), title, body);
    AppendKeepsLifecycle(db, key, UpsertedItem(item, title, d, |db.versions|), row);
  }

  /** Item columns other than title and live pointer do not matter to the lifecycle. */
  lemma TouchKeepsLifecycle(db: Db, db': Db)
    requires Lifecycle(db) && db'.versions == db.versions && db'.items.Keys == db.items.Keys
    requires forall s | s in db.items ::
      db'.items[s].current == db.items[s].current && db'.items[s].title == db.items[s].title
    ensures Lifecycle(db')
  {
    forall k: nat
      ensures HasItem(db', k)
    {
      assert HasItem(db, k);
    }
    forall s | s in db'.items
      ensures PointerOk(db', s)
    {
      assert PointerOk(db, s);
    }
  }

  lemma ArchiveKeepsLifecycle(db: Db, slug: string)
    requires Lifecycle(db) && slug in db.items
    ensures Lifecycle(ArchivedDb(db, slug))
  {
    TouchKeepsLifecycle(db, ArchivedDb(db, slug));
  }

  // ---------------------------------------------------------------- what an upsert and an archiving leave

  /** The new version: the next number of the item, and the status its decision calls for. */
  predicate NextVersion(db: Db, key: string, title: string, body: string, d: Decision, row: Version) {
    && row.item == key && row.title == title && row.body == body && row.number == CountOf(db.versions, key) + 1
    && (row.status == Published <==> d == Publish) && (row.status == Rejected <==> d == Reject)
  }

  /** The item stays as it is but for its title, which follows the newest version until one goes live. */
  predicate StaysUnpublished(was: Item, title: string, now: Item) {
    && now.current == was.current && now.status == was.status
    && now.title == if was.current.None? then title else was.title
  }

  /** The row of the item an upsert is for: the one targeted, else the one under the slug, new as a draft
      of a source page. Publishing takes it live at the new version. */
  lemma UpsertExact(db: Db, slug: string, title: string, body: string, target: Option<string>, d: Decision)
    requires Lifecycle(db)
    ensures var out, key := Upserted(db, slug, title, body, target, d), if target.Some? then target.value else slug;
      && |out.versions| == |db.versions| + 1 && out.versions[..|db.versions|] == db.versions
      && NextVersion(db, key, title, body, d, out.versions[|db.versions|])
      && out.items.Keys == db.items.Keys + {key}
      && (forall k | k in db.items && k != key :: out.items[k] == db.items[k])
      && var now := out.items[key];
      && (d == Publish ==> now.current == Some(|db.versions|) && now.status == Live && now.title == title)
      && (d != Publish ==> StaysUnpublished(
            if key in db.items then db.items[key] else Item(title, Draft, Source, None, None, None), title, now))
      && (if key in db.items then now.kind == db.items[key].kind && now.domain == db.items[key].domain
             && now.provenance == db.items[key].provenance
          else now.kind == Source && now.domain == None && now.provenance == None)
      && out.chunks == db.chunks && out.tags == db.tags && out.links == db.links
  {
    MaxIsCount(db.versions, if target.Some? then target.value else slug);
  }

  /** Archiving sets the status, takes away the links at the item, and leaves the rest. */
  lemma ArchiveExact(db: Db, slug: string, l: WikiLink)
    requires slug in db.items
    ensures var out := ArchivedDb(db, slug);
      && out.items.Keys == db.items.Keys && (forall k | k in db.items && k != slug :: out.items[k] == db.items[k])
      && out.items[slug] == db.items[slug].(status := out.items[slug].status) && out.items[slug].status == Archived
      && (l in out.links <==> l in db.links && l.source != slug && l.target != slug)
      && out.versions == db.versions && out.chunks == db.chunks && out.tags == db.tags
  {
  }

  // ---------------------------------------------------------------- status and live pointer

  /** An item with a live version is live or archived; one without is a draft or archived. */
  ghost predicate StatusOk(db: Db) {
    forall slug | slug in db.items :: StatusFits(db.items[slug])
  }

  predicate StatusFits(item: Item) {
    item.status == Archived || (item.status == Live <==> item.current.Some?)
  }

  lemma UpsertKeepsStatus(db: Db, slug: string, title: string, body: string, target: Option<string>, d: Decision)
    requires StatusOk(db)
    ensures StatusOk(Upserted(db, slug, title, body, target, d))
  {
  }

  lemma ArchiveKeepsStatus(db: Db, slug: string)
    requires StatusOk(db) && slug in db.items
    ensures StatusOk(ArchivedDb(db, slug))
  {
  }
}
