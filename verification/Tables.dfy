/** The tables over whole runs: what every sequence of upserts, mirrors, archivings and backfills keeps. */
module Tables {
  import opened Strings
  import opened Store
  import opened Versioning
  import opened Mirror
  import opened Backfill

  datatype Step = Upsert(slug: string, title: string, body: string, target: Option<string>, decision: Decision)
                | MirrorAll(entries: seq<Entry>)
                | Archive(slug: string)
                | Embed(rows: seq<Chunk>, vectors: seq<Vec>)

  /** The tables after one step; archiving what is not there is refused and changes nothing. */
  function After(t: Tools, db: Db, step: Step): Db {
    match step
    case Upsert(slug, title, body, target, decision) => Upserted(db, slug, title, body, target, decision)
    case MirrorAll(entries) => Mirrored(t, db, entries)
    case Archive(slug) => if slug in db.items then ArchivedDb(db, slug) else db
    case Embed(rows, vectors) => db.(chunks := Assigned(db.chunks, rows, vectors))
  }

  function AfterAll(t: Tools, steps: seq<Step>): Db {
    if steps == [] then EmptyDb else After(t, AfterAll(t, steps[..|steps| - 1]), steps[|steps| - 1])
  }

  // ---------------------------------------------------------------- versions

  lemma {:induction false} FirstPassKeepsLifecycle(t: Tools, db: Db, entries: seq<Entry>)
    requires Lifecycle(db)
    ensures Lifecycle(FirstPass(t, db, entries))
  {
    if entries != [] {
      FirstPassKeepsLifecycle(t, db, entries[..|entries| - 1]);
      PageKeepsLifecycle(t, FirstPass(t, db, entries[..|entries| - 1]), entries[|entries| - 1]);
    }
  }

  lemma StepKeepsLifecycle(t: Tools, db: Db, step: Step)
    requires Lifecycle(db)
    ensures Lifecycle(After(t, db, step))
  {
    match step
    case Upsert(slug, title, body, target, decision) => UpsertKeepsLifecycle(db, slug, title, body, target, decision);
    case MirrorAll(entries) =>
      FirstPassKeepsLifecycle(t, db, entries);
      TouchKeepsLifecycle(FirstPass(t, db, entries), Mirrored(t, db, entries));
    case Archive(slug) =>
      if slug in db.items {
        ArchiveKeepsLifecycle(db, slug);
      }
    case Embed(_, _) => TouchKeepsLifecycle(db, After(t, db, step));
  }

  lemma {:induction false} RunsKeepLifecycle(t: Tools, steps: seq<Step>)
    ensures Lifecycle(AfterAll(t, steps))
  {
    if steps != [] {
      RunsKeepLifecycle(t, steps[..|steps| - 1]);
      StepKeepsLifecycle(t, AfterAll(t, steps[..|steps| - 1]), steps[|steps| - 1]);
    }
  }

  /** After any run an item's version numbers are exactly 1 to n, and its live version is one of its own,
      published, the highest of its published ones, and carries its title. */
  lemma VersionsOverRuns(t: Tools, steps: seq<Step>, slug: string)
    requires slug in AfterAll(t, steps).items
    ensures var db := AfterAll(t, steps);
      && (forall n: nat :: IsNumber(db.versions, slug, n) <==> 1 <= n <= CountOf(db.versions, slug))
      && (db.items[slug].current.Some? ==>
           IsLiveVersion(db.versions, slug, db.items[slug].title, db.items[slug].current.value))
      && (db.items[slug].current.None? ==> NeverPublished(db.versions, slug))
  {
    var db := AfterAll(t, steps);
    RunsKeepLifecycle(t, steps);
    assert PointerOk(db, slug);
    forall n: nat
      ensures IsNumber(db.versions, slug, n) <==> 1 <= n <= CountOf(db.versions, slug)
    {
      NumbersAreOneToN(db.versions, slug, n);
    }
  }

  // ---------------------------------------------------------------- what readers see

  lemma {:induction false} SetVectorKeepsTexts(chunks: seq<Chunk>, id: nat, v: Vec, slug: string)
    ensures TextsOf(SetVector(chunks, id, v), slug) == TextsOf(chunks, slug)
  {
    if chunks != [] {
      SetVectorKeepsTexts(chunks[..|chunks| - 1], id, v, slug);
      assert SetVector(chunks, id, v)[..|chunks| - 1] == SetVector(chunks[..|chunks| - 1], id, v);
    }
  }

  lemma {:induction false} AssignedKeepsTexts(chunks: seq<Chunk>, rows: seq<Chunk>, vectors: seq<Vec>, slug: string)
    ensures TextsOf(Assigned(chunks, rows, vectors), slug) == TextsOf(chunks, slug)
  {
    if rows != [] {
      var n := |rows| - 1;
      AssignedKeepsTexts(chunks, rows[..n], vectors, slug);
      if n < |vectors| {
        SetVectorKeepsTexts(Assigned(chunks, rows[..n], vectors), rows[n].id, vectors[n], slug);
      }
    }
  }

  /** Neither embedding nor archiving changes what is seen of any page. */
  lemma EmbedKeepsViews(db: Db, rows: seq<Chunk>, vectors: seq<Vec>, slug: string)
    ensures ViewOf(db.(chunks := Assigned(db.chunks, rows, vectors)), slug) == ViewOf(db, slug)
  {
    AssignedKeepsTexts(db.chunks, rows, vectors, slug);
  }

  lemma ArchiveKeepsViews(db: Db, gone: string, slug: string)
    requires gone in db.items
    ensures ViewOf(ArchivedDb(db, gone), slug) == ViewOf(db, slug)
  {
  }

  lemma EmbedKeepsInv(t: Tools, db: Db, rows: seq<Chunk>, vectors: seq<Vec>)
    requires Inv(t, db)
    ensures Inv(t, db.(chunks := Assigned(db.chunks, rows, vectors)))
  {
    var db' := db.(chunks := Assigned(db.chunks, rows, vectors));
    TouchKeepsLifecycle(db, db');
    forall slug
      ensures ChunksOk(t, db', slug)
    {
      assert ChunksOk(t, db, slug);
      AssignedKeepsTexts(db.chunks, rows, vectors, slug);
    }
  }

  lemma ArchiveKeepsInv(t: Tools, db: Db, gone: string)
    requires Inv(t, db) && gone in db.items
    ensures Inv(t, ArchivedDb(db, gone))
  {
    ArchiveKeepsLifecycle(db, gone);
    forall slug
      ensures ChunksOk(t, ArchivedDb(db, gone), slug)
    {
      assert ChunksOk(t, db, slug);
    }
  }

  /** A step of the pipeline itself; a mirror lists every slug of its bundle once. */
  predicate InPipeline(step: Step) {
    !step.Upsert? && (step.MirrorAll? ==> DistinctSlugs(step.entries))
  }

  lemma {:induction false} RunsKeepInv(t: Tools, steps: seq<Step>)
    requires forall k | 0 <= k < |steps| :: InPipeline(steps[k])
    ensures Inv(t, AfterAll(t, steps))
  {
    if steps == [] {
      EmptyInv(t);
    } else {
      var db, step := AfterAll(t, steps[..|steps| - 1]), steps[|steps| - 1];
      RunsKeepInv(t, steps[..|steps| - 1]);
      assert InPipeline(step);
      match step
      case MirrorAll(entries) => MirrorSyncs(t, db, entries);
      case Archive(slug) =>
        if slug in db.items {
          ArchiveKeepsInv(t, db, slug);
        }
      case Embed(rows, vectors) => EmbedKeepsInv(t, db, rows, vectors);
    }
  }

  /** From any tables that mirrors, backfills and archivings can lead to, mirroring a bundle gives its
      pages and the links among them as mirroring it into empty tables would. */
  lemma MirrorRefinesRebuildOverRuns(t: Tools, steps: seq<Step>, entries: seq<Entry>)
    requires (forall k | 0 <= k < |steps| :: InPipeline(steps[k])) && DistinctSlugs(entries)
    ensures var out, rebuilt := Mirrored(t, AfterAll(t, steps), entries), Mirrored(t, EmptyDb, entries);
      && (forall k | 0 <= k < |entries| :: ViewOf(out, entries[k].Slug()) == ViewOf(rebuilt, entries[k].Slug()))
      && MutualPairs(out, SlugsOf(entries)) == MutualPairs(rebuilt, SlugsOf(entries))
  {
    RunsKeepInv(t, steps);
    MirrorRefinesRebuild(t, AfterAll(t, steps), entries);
  }

  /** A mirror right after a mirror changes nothing, and so does one with backfills in between: no new
      version, and every chunk row keeps its vector. */
  lemma MirrorAfterBackfill(t: Tools, steps: seq<Step>, entries: seq<Entry>, rows: seq<Chunk>, vectors: seq<Vec>)
    requires (forall k | 0 <= k < |steps| :: InPipeline(steps[k])) && DistinctSlugs(entries)
    ensures var once := Mirrored(t, AfterAll(t, steps), entries);
      var later := once.(chunks := Assigned(once.chunks, rows, vectors));
      Mirrored(t, later, entries) == later && ChangedCount(t, later, entries) == 0
  {
    RunsKeepInv(t, steps);
    var db := AfterAll(t, steps);
    MirrorSyncs(t, db, entries);
    var once := Mirrored(t, db, entries);
    var later := once.(chunks := Assigned(once.chunks, rows, vectors));
    EmbedKeepsInv(t, once, rows, vectors);
    forall k | 0 <= k < |entries|
      ensures Synced(t, later, entries[k])
    {
      assert Synced(t, once, entries[k]);
      EmbedKeepsViews(once, rows, vectors, entries[k].Slug());
    }
    FirstPassFixed(t, later, entries);
    RelinkedTwice(t, FirstPass(t, db, entries), entries);
  }

  // ---------------------------------------------------------------- what status an item has

  lemma {:induction false} FirstPassKeepsStatus(t: Tools, db: Db, entries: seq<Entry>)
    requires Lifecycle(db) && StatusOk(db)
    ensures StatusOk(FirstPass(t, db, entries))
  {
    if entries != [] {
      var front, e := entries[..|entries| - 1], entries[|entries| - 1];
      FirstPassKeepsStatus(t, db, front);
      FirstPassKeepsLifecycle(t, db, front);
      PageKeepsStatus(t, FirstPass(t, db, front), e);
    }
  }

  lemma PageKeepsStatus(t: Tools, db: Db, e: Entry)
    requires Lifecycle(db) && StatusOk(db)
    ensures StatusOk(PageMirrored(t, db, e))
  {
    assert e.Slug() in db.items ==> StatusFits(db.items[e.Slug()]) && PointerOk(db, e.Slug());
  }

  /** After any run an item that is not archived is live exactly if it has a live version, else a draft. */
  lemma {:induction false} StatusOverRuns(t: Tools, steps: seq<Step>)
    ensures StatusOk(AfterAll(t, steps))
  {
    if steps != [] {
      var front, last := steps[..|steps| - 1], steps[|steps| - 1];
      var db := AfterAll(t, front);
      StatusOverRuns(t, front);
      RunsKeepLifecycle(t, front);
      match last
      case Upsert(slug, title, body, target, decision) => UpsertKeepsStatus(db, slug, title, body, target, decision);
      case MirrorAll(entries) => FirstPassKeepsStatus(t, db, entries);
      case Archive(slug) => if slug in db.items { ArchiveKeepsStatus(db, slug); }
      case Embed(_, _) =>
    }
  }
}
