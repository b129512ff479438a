/** The whole pipeline over one bundle: ingest workflows whose steps interleave, each committing to the
    bundle before its own mirror, beside scheduled backfills and archivings. A mirror is one step. */
module Pipeline {
  import opened Strings
  import opened Bundle
  import opened Store
  import opened Versioning
  import opened Mirror
  import opened Backfill
  import opened Links
  import opened Wikilinks
  import C = Concurrent
  import I = Ingest
  import Resolve
  import Tables

  /** Where a workflow stands. */
  datatype Phase = Ingesting | Mirroring | Embedding | Completed | Failed

  /** `owes`: its attempts wrote to the bundle and its own mirror has not run since. */
  datatype Flow = Flow(phase: Phase, owes: bool)

  /** A batch selected for embedding and not committed yet. */
  datatype Pick = Pick(from: Db, batch: nat)

  /** `seen` and `entries` are the bundle and its pages as the last mirror found them, `archived` the items
      archived since. */
  datatype World = World(ingests: C.State, db: Db, flows: seq<Flow>, seen: Pages, entries: seq<Entry>,
                         archived: set<string>, picks: seq<Pick>)

  function Start(n: nat): World {
    World(C.Start(n), EmptyDb, seq(n, i => Flow(Ingesting, false)), map[], [], {}, [])
  }

  // ---------------------------------------------------------------- the steps

  /** One step of the ingest activity, of whatever attempt; the workflow moves on once it reports. */
  ghost predicate Ingests(t: Tools, w: World, w': World, i: nat) {
    i < |w.flows| && w.flows[i].phase == Ingesting && C.Step(I.RulesFor(t.slugify), w.ingests, w'.ingests, i)
    && i < |w'.ingests.jobs|
    && var flow := Flow(if w'.ingests.jobs[i].Reported? then Mirroring else Ingesting,
                       w.flows[i].owes || w'.ingests.pages != w.ingests.pages);
    w' == w.(ingests := w'.ingests, flows := w.flows[i := flow])
  }

  /** The mirror activity of a workflow, which runs after its ingest only. When its completion is lost the
      workflow does not move on and the mirror is tried again. */
  ghost predicate Mirrors(t: Tools, w: World, w': World, i: nat, entries: seq<Entry>, reported: bool) {
    && i < |w.flows| && w.flows[i].phase == Mirroring && Collected(w.ingests.pages, entries)
    && w' == w.(db := Mirrored(t, w.db, entries), seen := w.ingests.pages, entries := entries, archived := {},
                flows := w.flows[i := Flow(if reported then Embedding else Mirroring, false)])
  }

  /** The embed kick succeeds or fails; only a cancellation fails the workflow. */
  ghost predicate Finishes(w: World, w': World, i: nat, cancelled: bool) {
    i < |w.flows| && w.flows[i].phase == Embedding
    && w' == w.(flows := w.flows[i := w.flows[i].(phase := if cancelled then Failed else Completed)])
  }

  /** The last attempt of an activity failed. */
  ghost predicate GivesUp(w: World, w': World, i: nat) {
    && i < |w.flows| && i < |w.ingests.jobs|
    && (w.flows[i].phase == Mirroring || (w.flows[i].phase == Ingesting && w.ingests.jobs[i].Idle?))
    && w' == w.(flows := w.flows[i := w.flows[i].(phase := Failed)])
  }

  ghost predicate Archives(w: World, w': World, slug: string) {
    slug in w.db.items && w' == w.(db := ArchivedDb(w.db, slug), archived := w.archived + {slug})
  }

  /** A backfill run reads its batch, and commits the embeddings after other work went on. */
  ghost predicate Picks(w: World, w': World, batch: nat) {
    w' == w.(picks := w.picks + [Pick(w.db, batch)])
  }

  ghost predicate Commits(embed: string -> Vec, w: World, w': World, k: nat, vectors: seq<Vec>) {
    k < |w.picks| &&
    var rows := FirstPending(w.picks[k].from.chunks, w.picks[k].batch);
    Answers(embed, rows, vectors) && w' == w.(db := w.db.(chunks := Assigned(w.db.chunks, rows, vectors)))
  }

  datatype Label = Ingest(i: nat) | Mirror(i: nat, entries: seq<Entry>, reported: bool) | Finish(i: nat,
                          cancelled: bool) | GiveUp(i: nat)
                 | Archive(slug: string) | PickBatch(batch: nat) | CommitBatch(k: nat, vectors: seq<Vec>)

  ghost predicate Step(t: Tools, embed: string -> Vec, w: World, w': World, l: Label) {
    match l
    case Ingest(i) => Ingests(t, w, w', i)
    case Mirror(i, entries, reported) => Mirrors(t, w, w', i, entries, reported)
    case Finish(i, cancelled) => Finishes(w, w', i, cancelled)
    case GiveUp(i) => GivesUp(w, w', i)
    case Archive(slug) => Archives(w, w', slug)
    case PickBatch(batch) => Picks(w, w', batch)
    case CommitBatch(k, vectors) => Commits(embed, w, w', k, vectors)
  }

  // ---------------------------------------------------------------- the invariant

  predicate SettledAt(w: World, i: nat) {
    i < |w.flows| && (w.flows[i].phase == Embedding || w.flows[i].phase == Completed) ==> !w.flows[i].owes
  }

  ghost predicate SomeoneOwes(w: World) {
    exists i | 0 <= i < |w.flows| :: w.flows[i].owes
  }

  ghost predicate FlowsOk(w: World) {
    && (forall i: nat :: SettledAt(w, i))
    && (w.ingests.pages != w.seen ==> SomeoneOwes(w))
  }

  function Untouched(pairs: set<(string, string)>, gone: set<string>): set<(string, string)> {
    set p | p in pairs && p.0 !in gone && p.1 !in gone
  }

  /** The links among the pages are those the bodies ask for, but for those archiving took away. */
  predicate LinksOk(t: Tools, w: World) {
    MutualPairs(w.db, SlugsOf(w.entries)) == Untouched(WantedPairs(t, SlugsOf(w.entries), w.entries), w.archived)
  }

  /** The tables agree with the bundle as last seen, and hold nothing else. */
  ghost predicate IndexOk(t: Tools, w: World) {
    && Inv(t, w.db) && Collected(w.seen, w.entries) && AllSynced(t, w.db, w.entries) && LinksOk(t, w)
    && w.db.items.Keys <= AllSlugs(w.seen) <= AllSlugs(w.ingests.pages)
  }

  ghost predicate PickOk(embed: string -> Vec, w: World, k: nat) {
    k < |w.picks| ==> IdsInOrder(w.picks[k].from) && Evolves(embed, w.picks[k].from, w.db)
  }

  ghost predicate VectorsOk(embed: string -> Vec, w: World) {
    IdsInOrder(w.db) && Coherent(embed, w.db) && forall k: nat :: PickOk(embed, w, k)
  }

  ghost predicate PipelineInv(t: Tools, embed: string -> Vec, w: World) {
    C.Inv(I.RulesFor(t.slugify), w.ingests) && FlowsOk(w) && IndexOk(t, w) && VectorsOk(embed, w)
  }

  lemma StartInv(t: Tools, embed: string -> Vec, n: nat)
    ensures PipelineInv(t, embed, Start(n))
  {
    C.StartInv(I.RulesFor(t.slugify), n);
    EmptyInv(t);
  }

  // ---------------------------------------------------------------- steps of workflows

  lemma IngestKeeps(t: Tools, embed: string -> Vec, w: World, w': World, i: nat)
    requires PipelineInv(t, embed, w) && Ingests(t, w, w', i)
    ensures PipelineInv(t, embed, w')
  {
    C.StepKeeps(I.RulesFor(t.slugify), w.ingests, w'.ingests, i);
    C.StepGrows(I.RulesFor(t.slugify), w.ingests, w'.ingests, i);
    GrowsSlugs(w.ingests.pages, w'.ingests.pages);
    KeepsFlows(w, w', i);
    SameVectors(embed, w, w');
  }

  lemma GrowsSlugs(b: Pages, b': Pages)
    requires I.Grows(b, b')
    ensures AllSlugs(b) <= AllSlugs(b')
  {
    forall s | s in AllSlugs(b)
      ensures s in AllSlugs(b')
    {
      var k :| k in b && k.slug == s;
      assert k in b';
    }
  }

  /** A workflow that writes owes a mirror; the others owe what they owed. */
  lemma KeepsFlows(w: World, w': World, i: nat)
    requires FlowsOk(w) && i < |w.flows| == |w'.flows| && w'.seen == w.seen && w'.flows == w.flows[i := w'.flows[i]]
    requires w'.flows[i].phase != Embedding && w'.flows[i].phase != Completed
    requires w'.flows[i].owes == (w.flows[i].owes || w'.ingests.pages != w.ingests.pages)
    ensures FlowsOk(w')
  {
    forall k: nat
      ensures SettledAt(w', k)
    {
      assert SettledAt(w, k);
    }
    if SomeoneOwes(w) {
      var k :| 0 <= k < |w.flows| && w.flows[k].owes;
      assert w'.flows[k].owes;
    }
    if w'.ingests.pages != w.ingests.pages {
      assert w'.flows[i].owes;
    }
  }

  lemma SameVectors(embed: string -> Vec, w: World, w': World)
    requires VectorsOk(embed, w) && w'.db == w.db && w'.picks == w.picks
    ensures VectorsOk(embed, w')
  {
    forall k: nat
      ensures PickOk(embed, w', k)
    {
      assert PickOk(embed, w, k);
    }
  }

  /** Whatever evolves the chunk table keeps vectors coherent and open batches good. */
  lemma EvolvedVectors(embed: string -> Vec, w: World, w': World)
    requires VectorsOk(embed, w) && Evolves(embed, w.db, w'.db) && w'.picks == w.picks
    ensures VectorsOk(embed, w')
  {
    EvolvingStaysCoherent(embed, w.db, w'.db);
    forall k: nat
      ensures PickOk(embed, w', k)
    {
      assert PickOk(embed, w, k);
      if k < |w.picks| {
        EvolvesTransitive(embed, w.picks[k].from, w.db, w'.db);
      }
    }
  }

  /** The mirror brings the tables in line with the bundle as it stands, whoever wrote it. */
  lemma MirrorKeeps(t: Tools, embed: string -> Vec, w: World, w': World, i: nat, entries: seq<Entry>, reported: bool)
    requires PipelineInv(t, embed, w) && Mirrors(t, w, w', i, entries, reported)
    ensures PipelineInv(t, embed, w') && w'.seen == w'.ingests.pages
  {
    MirrorIndexes(t, w, w', i, entries, reported);
    MirrorEvolves(t, embed, w.db, entries);
    EvolvedVectors(embed, w, w');
    forall k: nat
      ensures SettledAt(w', k)
    {
      assert SettledAt(w, k);
    }
  }

  lemma MirrorIndexes(t: Tools, w: World, w': World, i: nat, entries: seq<Entry>, reported: bool)
    requires IndexOk(t, w) && Mirrors(t, w, w', i, entries, reported)
    ensures IndexOk(t, w')
  {
    MirrorSyncs(t, w.db, entries);
    MutualLinksExact(t, w.db, entries);
    var pairs := WantedPairs(t, SlugsOf(entries), entries);
    assert Untouched(pairs, {}) == pairs;
    FirstPassItems(t, w.db, entries);
  }

  /** A workflow whose phase changes and nothing else. */
  lemma PhaseKeeps(t: Tools, embed: string -> Vec, w: World, w': World, i: nat, phase: Phase)
    requires PipelineInv(t, embed, w) && i < |w.flows| && w' == w.(flows := w.flows[i := w.flows[i].(phase := phase)])
    requires phase == Failed || (phase == Completed && w.flows[i].phase == Embedding)
    ensures PipelineInv(t, embed, w')
  {
    forall k: nat
      ensures SettledAt(w', k)
    {
      assert SettledAt(w, k) && SettledAt(w, i);
    }
    if SomeoneOwes(w) {
      var k :| 0 <= k < |w.flows| && w.flows[k].owes;
      assert w'.flows[k].owes;
    }
    SameVectors(embed, w, w');
  }

  // ---------------------------------------------------------------- steps beside the workflows

  lemma SameFlows(w: World, w': World)
    requires FlowsOk(w) && w'.flows == w.flows && w'.seen == w.seen && w'.ingests == w.ingests
    ensures FlowsOk(w')
  {
    forall k: nat
      ensures SettledAt(w', k)
    {
      assert SettledAt(w, k);
    }
    if SomeoneOwes(w) {
      var k :| 0 <= k < |w.flows| && w.flows[k].owes;
      assert w'.flows[k].owes;
    }
  }

  /** What keeps the view of every page keeps the pages synced. */
  lemma ViewsKeepSync(t: Tools, db: Db, db': Db, entries: seq<Entry>)
    requires AllSynced(t, db, entries)
        && forall k | 0 <= k < |entries| :: ViewOf(db', entries[k].Slug()) == ViewOf(db, entries[k].Slug())
    ensures AllSynced(t, db', entries)
  {
    forall k | 0 <= k < |entries|
      ensures Synced(t, db', entries[k])
    {
      assert Synced(t, db, entries[k]);
    }
  }

  /** Archiving an item takes away the links at it and no others. */
  lemma ArchivePairs(db: Db, gone: string, slugs: set<string>)
    requires gone in db.items
    ensures MutualPairs(ArchivedDb(db, gone), slugs) == Untouched(MutualPairs(db, slugs), {gone})
  {
    var out := ArchivedDb(db, gone);
    forall p
      ensures p in MutualPairs(out, slugs) <==> p in Untouched(MutualPairs(db, slugs), {gone})
    {
      if p in Untouched(MutualPairs(db, slugs), {gone}) {
        var l: WikiLink :|
          l in db.links && l.origin == Explicit && l.source in slugs && l.target in slugs && p == (l.source, l.target);
        assert l in out.links;
      }
    }
  }

  lemma UntouchedTwice(pairs: set<(string, string)>, a: set<string>, b: set<string>)
    ensures Untouched(Untouched(pairs, a), b) == Untouched(pairs, a + b)
  {
  }

  lemma ArchiveIndexes(t: Tools, w: World, w': World, slug: string)
    requires IndexOk(t, w) && Archives(w, w', slug)
    ensures IndexOk(t, w')
  {
    Tables.ArchiveKeepsInv(t, w.db, slug);
    forall k | 0 <= k < |w.entries|
      ensures ViewOf(w'.db, w.entries[k].Slug()) == ViewOf(w.db, w.entries[k].Slug())
    {
      Tables.ArchiveKeepsViews(w.db, slug, w.entries[k].Slug());
    }
    ViewsKeepSync(t, w.db, w'.db, w.entries);
    ArchivePairs(w.db, slug, SlugsOf(w.entries));
    UntouchedTwice(WantedPairs(t, SlugsOf(w.entries), w.entries), w.archived, {slug});
  }

  lemma ArchiveKeeps(t: Tools, embed: string -> Vec, w: World, w': World, slug: string)
    requires PipelineInv(t, embed, w) && Archives(w, w', slug)
    ensures PipelineInv(t, embed, w')
  {
    ArchiveIndexes(t, w, w', slug);
    EvolvesSelf(embed, w.db);
    SameChunks(embed, w.db, w.db, w'.db);
    EvolvedVectors(embed, w, w');
    SameFlows(w, w');
  }

  lemma PickKeeps(t: Tools, embed: string -> Vec, w: World, w': World, batch: nat)
    requires PipelineInv(t, embed, w) && Picks(w, w', batch)
    ensures PipelineInv(t, embed, w')
  {
    PickVectors(embed, w, w', batch);
    SameFlows(w, w');
  }

  lemma PickVectors(embed: string -> Vec, w: World, w': World, batch: nat)
    requires VectorsOk(embed, w) && Picks(w, w', batch)
    ensures VectorsOk(embed, w')
  {
    EvolvesSelf(embed, w.db);
    forall k: nat
      ensures PickOk(embed, w', k)
    {
      assert PickOk(embed, w, k);
    }
  }

  lemma CommitKeeps(t: Tools, embed: string -> Vec, w: World, w': World, k: nat, vectors: seq<Vec>)
    requires PipelineInv(t, embed, w) && Commits(embed, w, w', k, vectors)
    ensures PipelineInv(t, embed, w')
  {
    var pick := w.picks[k];
    var rows := FirstPending(pick.from.chunks, pick.batch);
    assert PickOk(embed, w, k);
    CommitEvolves(embed, pick.from, w.db, pick.batch, vectors);
    EvolvedVectors(embed, w, w');
    Tables.EmbedKeepsInv(t, w.db, rows, vectors);
    forall e | 0 <= e < |w.entries|
      ensures ViewOf(w'.db, w.entries[e].Slug()) == ViewOf(w.db, w.entries[e].Slug())
    {
      Tables.EmbedKeepsViews(w.db, rows, vectors, w.entries[e].Slug());
    }
    ViewsKeepSync(t, w.db, w'.db, w.entries);
    SameFlows(w, w');
  }

  lemma StepKeeps(t: Tools, embed: string -> Vec, w: World, w': World, l: Label)
    requires PipelineInv(t, embed, w) && Step(t, embed, w, w', l)
    ensures PipelineInv(t, embed, w')
  {
    match l
    case Ingest(i) => IngestKeeps(t, embed, w, w', i);
    case Mirror(i, entries, reported) => MirrorKeeps(t, embed, w, w', i, entries, reported);
    case Finish(i, cancelled) => PhaseKeeps(t, embed, w, w', i, if cancelled then Failed else Completed);
    case GiveUp(i) => PhaseKeeps(t, embed, w, w', i, Failed);
    case Archive(slug) => ArchiveKeeps(t, embed, w, w', slug);
    case PickBatch(batch) => PickKeeps(t, embed, w, w', batch);
    case CommitBatch(k, vectors) => CommitKeeps(t, embed, w, w', k, vectors);
  }

  // ---------------------------------------------------------------- whole runs

  ghost predicate Run(t: Tools, embed: string -> Vec, n: nat, worlds: seq<World>, labels: seq<Label>) {
    && |worlds| == |labels| + 1 && worlds[0] == Start(n)
    && forall i: nat {:trigger labels[i]} | i < |labels| :: Step(t, embed, worlds[i], worlds[i + 1], labels[i])
  }

  lemma {:induction false} RunKeeps(t: Tools, embed: string -> Vec, n: nat, worlds: seq<World>, labels: seq<Label>,
                                    m: nat)
    requires Run(t, embed, n, worlds, labels) && m < |worlds|
    ensures PipelineInv(t, embed, worlds[m])
  {
    if m == 0 {
      StartInv(t, embed, n);
    } else {
      RunKeeps(t, embed, n, worlds, labels, m - 1);
      StepKeeps(t, embed, worlds[m - 1], worlds[m], labels[m - 1]);
    }
  }

  // ---------------------------------------------------------------- convergence

  /** Two listings of a bundle hold the same pages. */
  lemma ListedOnce(b: Pages, entries: seq<Entry>, e: Entry) returns (k: nat)
    requires Collected(b, entries) && FirstSeen(b, e)
    ensures k < |entries| && entries[k] == e
  {
    FirstTypeExact(b, e.Slug());
    assert e.Slug() in SlugsOf(entries);
    k :| 0 <= k < |entries| && entries[k].Slug() == e.Slug();
    assert FirstSeen(b, entries[k]);
  }

  /** The last mirror found a page under this slug that shows the same. */
  ghost predicate SeenAlike(t: Tools, w: World, e: Entry) {
    exists f :: FirstSeen(w.seen, f) && f.Slug() == e.Slug() && Wanted(t, f) == Wanted(t, e)
  }

  /** At any moment of any run, whatever workflows completed or failed, the index shows a page as the
      bundle has it exactly if the last mirror found it there showing the same. */
  lemma SyncedIffSeenAlike(t: Tools, embed: string -> Vec, n: nat, worlds: seq<World>, labels: seq<Label>,
                           m: nat, e: Entry)
    requires Run(t, embed, n, worlds, labels) && m < |worlds| && FirstSeen(worlds[m].ingests.pages, e)
    ensures ViewOf(worlds[m].db, e.Slug()) == Some(Wanted(t, e)) <==> SeenAlike(t, worlds[m], e)
  {
    RunKeeps(t, embed, n, worlds, labels, m);
    var w := worlds[m];
    if f :| FirstSeen(w.seen, f) && f.Slug() == e.Slug() && Wanted(t, f) == Wanted(t, e) {
      var k := ListedOnce(w.seen, w.entries, f);
      assert Synced(t, w.db, w.entries[k]);
    }
    if ViewOf(w.db, e.Slug()).Some? {
      assert e.Slug() in SlugsOf(w.entries);
      var k :| 0 <= k < |w.entries| && w.entries[k].Slug() == e.Slug();
      assert FirstSeen(w.seen, w.entries[k]) && Synced(t, w.db, w.entries[k]);
    }
  }

  /** Convergence: at any moment at which no page was written since the last mirror, the index view of
      every page is that of the bundle, what mirroring it into empty tables gives. */
  lemma IndexShowsBundle(t: Tools, embed: string -> Vec, n: nat, worlds: seq<World>, labels: seq<Label>, m: nat,
                         entries: seq<Entry>)
    requires Run(t, embed, n, worlds, labels) && m < |worlds|
    requires worlds[m].seen == worlds[m].ingests.pages && Collected(worlds[m].ingests.pages, entries)
    ensures AllSynced(t, worlds[m].db, entries)
    ensures forall k | 0 <= k < |entries| ::
      ViewOf(worlds[m].db, entries[k].Slug()) == ViewOf(Mirrored(t, EmptyDb, entries), entries[k].Slug())
  {
    var w := worlds[m];
    forall k | 0 <= k < |entries|
      ensures Synced(t, w.db, entries[k])
    {
      assert FirstSeen(w.seen, entries[k]);
      SyncedIffSeenAlike(t, embed, n, worlds, labels, m, entries[k]);
    }
    EmptyInv(t);
    MirrorSyncs(t, EmptyDb, entries);
    forall k | 0 <= k < |entries|
      ensures ViewOf(w.db, entries[k].Slug()) == ViewOf(Mirrored(t, EmptyDb, entries), entries[k].Slug())
    {
      assert Synced(t, w.db, entries[k]) && Synced(t, Mirrored(t, EmptyDb, entries), entries[k]);
    }
  }

  /** At such a moment the links among the pages are exactly those the bodies ask for, but for the links
      of items archived since the last mirror. */
  lemma LinksConverge(t: Tools, embed: string -> Vec, n: nat, worlds: seq<World>, labels: seq<Label>, m: nat)
    requires Run(t, embed, n, worlds, labels) && m < |worlds| && worlds[m].seen == worlds[m].ingests.pages
    ensures var w := worlds[m];
      && Collected(w.ingests.pages, w.entries)
      && MutualPairs(w.db, SlugsOf(w.entries)) == Untouched(WantedPairs(t, SlugsOf(w.entries), w.entries), w.archived)
  {
    RunKeeps(t, embed, n, worlds, labels, m);
  }

  /** No page was written since some mirror. */
  ghost predicate QuietSince(worlds: seq<World>, labels: seq<Label>, q: nat, m: nat) {
    && q < m < |worlds| && m <= |labels| && labels[q].Mirror?
    && forall k: nat | q <= k <= m :: worlds[k].ingests.pages == worlds[m].ingests.pages
  }

  lemma {:induction false} QuietMeansSeen(t: Tools, embed: string -> Vec, n: nat, worlds: seq<World>,
                                          labels: seq<Label>, q: nat, m: nat)
    requires Run(t, embed, n, worlds, labels) && QuietSince(worlds, labels, q, m)
    ensures worlds[m].seen == worlds[m].ingests.pages
    decreases m
  {
    var w, w', l := worlds[m - 1], worlds[m], labels[m - 1];
    assert Step(t, embed, w, w', l);
    if m > q + 1 {
      QuietMeansSeen(t, embed, n, worlds, labels, q, m - 1);
    }
    assert w'.seen == w.seen || w'.seen == w.ingests.pages;
  }

  /** At any moment at which every workflow that wrote has mirrored since, nothing was written since the
      last mirror. */
  lemma SyncedWhenNobodyOwes(t: Tools, embed: string -> Vec, n: nat, worlds: seq<World>, labels: seq<Label>,
                             m: nat, e: Entry)
    requires Run(t, embed, n, worlds, labels) && m < |worlds| && !SomeoneOwes(worlds[m])
    requires FirstSeen(worlds[m].ingests.pages, e)
    ensures worlds[m].seen == worlds[m].ingests.pages && ViewOf(worlds[m].db, e.Slug()) == Some(Wanted(t, e))
  {
    RunKeeps(t, embed, n, worlds, labels, m);
    SyncedIffSeenAlike(t, embed, n, worlds, labels, m, e);
  }

  predicate AllCompleted(w: World) {
    forall i | 0 <= i < |w.flows| :: w.flows[i].phase == Completed
  }

  /** When all workflows have completed, in whatever order their steps and retries came, the index has
      converged. */
  lemma Converges(t: Tools, embed: string -> Vec, n: nat, worlds: seq<World>, labels: seq<Label>,
                  m: nat, entries: seq<Entry>)
    requires Run(t, embed, n, worlds, labels) && m < |worlds| && AllCompleted(worlds[m])
    requires Collected(worlds[m].ingests.pages, entries)
    ensures worlds[m].seen == worlds[m].ingests.pages && AllSynced(t, worlds[m].db, entries)
    ensures forall k | 0 <= k < |entries| ::
      ViewOf(worlds[m].db, entries[k].Slug()) == ViewOf(Mirrored(t, EmptyDb, entries), entries[k].Slug())
  {
    NobodyOwes(t, embed, n, worlds, labels, m);
    IndexShowsBundle(t, embed, n, worlds, labels, m, entries);
  }

  lemma NobodyOwes(t: Tools, embed: string -> Vec, n: nat, worlds: seq<World>, labels: seq<Label>, m: nat)
    requires Run(t, embed, n, worlds, labels) && m < |worlds| && AllCompleted(worlds[m])
    ensures !SomeoneOwes(worlds[m]) && worlds[m].seen == worlds[m].ingests.pages
  {
    RunKeeps(t, embed, n, worlds, labels, m);
    var w := worlds[m];
    forall i | 0 <= i < |w.flows|
      ensures !w.flows[i].owes
    {
      assert SettledAt(w, i);
    }
  }

  /** In every state of every run each stored vector embeds the text of its own row. */
  lemma VectorsStayCoherent(t: Tools, embed: string -> Vec, n: nat, worlds: seq<World>, labels: seq<Label>, m: nat)
    requires Run(t, embed, n, worlds, labels) && m < |worlds|
    ensures Coherent(embed, worlds[m].db)
  {
    RunKeeps(t, embed, n, worlds, labels, m);
  }

  /** In every state of every run version numbers and live pointers are in order. */
  lemma LifecycleHolds(t: Tools, embed: string -> Vec, n: nat, worlds: seq<World>, labels: seq<Label>, m: nat)
    requires Run(t, embed, n, worlds, labels) && m < |worlds|
    ensures Lifecycle(worlds[m].db)
  {
    RunKeeps(t, embed, n, worlds, labels, m);
  }

  // ---------------------------------------------------------------- a last mirror that fails for good

  /** One workflow beside an ingest job in this state, nothing mirrored yet. */
  function Lifted(s: C.State): World {
    Start(1).(ingests := s,
              flows := [Flow(if |s.jobs| == 1 && s.jobs[0].Reported? then Mirroring else Ingesting, s.pages != map[])])
  }

  lemma LiftedStep(t: Tools, s: C.State, s': C.State)
    requires C.Step(I.RulesFor(t.slugify), s, s', 0) && |s.jobs| == |s'.jobs| == 1
    ensures Ingests(t, Lifted(s), Lifted(s'), 0)
  {
    C.StepGrows(I.RulesFor(t.slugify), s, s', 0);
    if k :| k in s.pages {
      assert k in s'.pages;
    }
    assert Lifted(s).flows[0 := Lifted(s').flows[0]] == Lifted(s').flows;
  }

  function LiftedRun(states: seq<C.State>): seq<World> {
    seq(|states|, i requires 0 <= i < |states| => Lifted(states[i]))
  }

  function IngestLabels(n: nat): seq<Label> {
    seq(n, i => Ingest(0))
  }

  lemma LiftedStepAt(t: Tools, states: seq<C.State>, movers: seq<nat>, i: nat)
    requires C.Run(I.RulesFor(t.slugify), states, movers) && states[0] == C.Start(1) && i < |movers| && movers[i] == 0
    ensures Ingests(t, Lifted(states[i]), Lifted(states[i + 1]), 0)
  {
    C.RunKeeps(I.RulesFor(t.slugify), states, movers, 1, i);
    C.RunKeeps(I.RulesFor(t.slugify), states, movers, 1, i + 1);
    LiftedStep(t, states[i], states[i + 1]);
  }

  lemma LiftedStart()
    ensures Lifted(C.Start(1)) == Start(1)
  {
    assert Start(1).flows == [Flow(Ingesting, false)];
  }

  /** A run of a single ingest is a run of the pipeline with a single workflow. */
  lemma LiftedIsRun(t: Tools, embed: string -> Vec, states: seq<C.State>, movers: seq<nat>)
    requires C.Run(I.RulesFor(t.slugify), states, movers) && states[0] == C.Start(1)
    requires forall i | 0 <= i < |movers| :: movers[i] == 0
    ensures Run(t, embed, 1, LiftedRun(states), IngestLabels(|movers|))
  {
    forall i: nat | i < |movers|
      ensures Ingests(t, Lifted(states[i]), Lifted(states[i + 1]), 0)
    {
      LiftedStepAt(t, states, movers, i);
    }
    LiftedStart();
    StepsAreRun(t, embed, states, |movers|);
  }

  lemma StepsAreRun(t: Tools, embed: string -> Vec, states: seq<C.State>, n: nat)
    requires |states| == n + 1 && Lifted(states[0]) == Start(1)
    requires forall i: nat | i < n :: Ingests(t, Lifted(states[i]), Lifted(states[i + 1]), 0)
    ensures Run(t, embed, 1, LiftedRun(states), IngestLabels(n))
  {
  }

  predicate AllFinished(w: World) {
    forall i | 0 <= i < |w.flows| :: w.flows[i].phase == Completed || w.flows[i].phase == Failed
  }

  lemma RunExtends(t: Tools, embed: string -> Vec, n: nat, worlds: seq<World>, labels: seq<Label>, w': World, l: Label)
    requires Run(t, embed, n, worlds, labels) && Step(t, embed, worlds[|labels|], w', l)
    ensures Run(t, embed, n, worlds + [w'], labels + [l])
  {
    var longer, more := worlds + [w'], labels + [l];
    forall i: nat | i < |more|
      ensures Step(t, embed, longer[i], longer[i + 1], more[i])
    {
      if i < |labels| {
        assert longer[i] == worlds[i] && longer[i + 1] == worlds[i + 1] && more[i] == labels[i];
      } else {
        assert longer[i] == worlds[|labels|] && longer[i + 1] == w' && more[i] == l;
      }
    }
  }

  /** The workflow after its ingest when its mirror has failed for good. */
  function GivenUp(s: C.State): World {
    Lifted(s).(flows := [Flow(Failed, s.pages != map[])])
  }

  /** Convergence fails when the last writer's mirror fails for good: whatever a single ingest stored, all
      workflows have finished and the index shows none of it. */
  lemma GivenUpMirrorLeavesIndexBehind(t: Tools, embed: string -> Vec, states: seq<C.State>, movers: seq<nat>)
    requires C.Run(I.RulesFor(t.slugify), states, movers) && states[0] == C.Start(1)
    requires forall i | 0 <= i < |movers| :: movers[i] == 0
    requires |states[|movers|].jobs| == 1 && states[|movers|].jobs[0].Reported?
    ensures var last := GivenUp(states[|movers|]);
      && Run(t, embed, 1, LiftedRun(states) + [last], IngestLabels(|movers|) + [GiveUp(0)]) && AllFinished(last)
      && last.ingests == states[|movers|] && forall slug :: ViewOf(last.db, slug) == None
  {
    var s := states[|movers|];
    LiftedIsRun(t, embed, states, movers);
    var w := Lifted(s);
    assert w.flows[0 := w.flows[0].(phase := Failed)] == GivenUp(s).flows;
    assert Step(t, embed, w, GivenUp(s), GiveUp(0));
    RunExtends(t, embed, 1, LiftedRun(states), IngestLabels(|movers|), GivenUp(s), GiveUp(0));
  }

  /** For instance a first ingest of any source without entities or concepts: its page is in the bundle and
      nowhere in the index. */
  lemma LastMirrorMayFail(t: Tools, embed: string -> Vec, x: Resolve.Extraction, source: string,
                          resource: Option<string>, today: string, raws: seq<string>, prepared: seq<I.Prepared>)
    requires today != "" && |prepared| == 1
    requires var r := I.RulesFor(t.slugify); var ops := Resolve.Plan(C.FirstContext(r, source), x, []);
      I.IsComposed(r, x, ops, source, I.ValidSlugs(ops, map[]), resource, today, raws, prepared)
    ensures var states := C.DoneRun(I.RulesFor(t.slugify), x, source, prepared, today);
      var last := GivenUp(states[7]);
      && Run(t, embed, 1, LiftedRun(states) + [last], IngestLabels(7) + [GiveUp(0)]) && AllFinished(last)
      && prepared[0].Key() in last.ingests.pages && ViewOf(last.db, prepared[0].page.slug) == None
  {
    var states, movers := C.DoneRun(I.RulesFor(t.slugify), x, source, prepared, today), [0, 0, 0, 0, 0, 0, 0];
    C.DoneRunReports(I.RulesFor(t.slugify), x, source, resource, today, raws, prepared);
    SevenStepsGivenUp(t, embed, states, movers);
  }

  lemma SevenStepsGivenUp(t: Tools, embed: string -> Vec, states: seq<C.State>, movers: seq<nat>)
    requires C.Run(I.RulesFor(t.slugify), states, movers) && states[0] == C.Start(1) && movers == [0, 0, 0, 0, 0, 0, 0]
    requires |states[7].jobs| == 1 && states[7].jobs[0].Reported?
    ensures var last := GivenUp(states[7]);
      && Run(t, embed, 1, LiftedRun(states) + [last], IngestLabels(7) + [GiveUp(0)]) && AllFinished(last)
      && forall slug :: ViewOf(last.db, slug) == None
  {
    GivenUpMirrorLeavesIndexBehind(t, embed, states, movers);
  }

  // ---------------------------------------------------------------- links of a text and link rows

  ghost predicate Targeted(t: Tools, names: seq<string>, l: string) {
    exists j: nat :: j < |names| && t.slugify(names[j]) == l
  }

  lemma TargetedMore(t: Tools, names: seq<string>, l: string)
    requires names != []
    ensures Targeted(t, names, l) <==> Targeted(t, names[..|names| - 1], l) || t.slugify(names[|names| - 1]) == l
  {
    var front := names[..|names| - 1];
    if j: nat :| j < |front| && t.slugify(front[j]) == l {
      assert names[j] == front[j];
    }
    if j: nat :| j < |names| && t.slugify(names[j]) == l {
      assert j < |front| ==> front[j] == names[j];
    }
  }

  lemma {:induction false} PairsExact(t: Tools, known: set<string>, slug: string, names: seq<string>, l: string)
    ensures (slug, l) in PairsTo(t, known, slug, names) <==> l in known && l != slug && Targeted(t, names, l)
  {
    if names != [] {
      PairsExact(t, known, slug, names[..|names| - 1], l);
      TargetedMore(t, names, l);
    }
  }

  /** The pairs that start at an entry are those its own body asks for. */
  lemma {:induction false} WantedFrom(t: Tools, known: set<string>, entries: seq<Entry>, k: nat, l: string)
    requires DistinctSlugs(entries) && k < |entries|
    ensures var p := (entries[k].Slug(), l);
      p in WantedPairs(t, known, entries) <==> p in PairsOf(t, known, entries[k])
  {
    var front, last := entries[..|entries| - 1], entries[|entries| - 1];
    PairsStart(t, known, last.Slug(), t.targets(last.page.body));
    if k < |front| {
      WantedFrom(t, known, front, k, l);
    } else {
      WantedPairsStart(t, known, front);
    }
  }

  /** The mirror extracts targets as the wikilink module does. */
  ghost predicate ExtractsWikilinks(t: Tools, casefold: string -> string) {
    forall body :: t.targets(body) == Targets(casefold, body)
  }

  /** From a text to the link table: once no page was written since the last mirror, a page has an explicit
      link row to another stored page exactly if the first spelling of one of the links in its body
      slugifies to it, unless an end of the row was archived since. */
  lemma LinkRowIff(t: Tools, embed: string -> Vec, casefold: string -> string, n: nat, worlds: seq<World>,
                   labels: seq<Label>, m: nat, e: Entry, l: string)
    requires Run(t, embed, n, worlds, labels) && m < |worlds| && worlds[m].seen == worlds[m].ingests.pages
    requires FirstSeen(worlds[m].ingests.pages, e) && ExtractsWikilinks(t, casefold)
    requires l in AllSlugs(worlds[m].ingests.pages) && l != e.Slug()
    ensures (e.Slug(), l) in MutualPairs(worlds[m].db, AllSlugs(worlds[m].ingests.pages))
      <==> LinksTo(casefold, t.slugify, e.page.body, l)
           && e.Slug() !in worlds[m].archived && l !in worlds[m].archived
  {
    RunKeeps(t, embed, n, worlds, labels, m);
    var w := worlds[m];
    var k := ListedOnce(w.ingests.pages, w.entries, e);
    WantedFrom(t, SlugsOf(w.entries), w.entries, k, l);
    PairsExact(t, SlugsOf(w.entries), e.Slug(), t.targets(e.page.body), l);
    TargetIff(casefold, t.slugify, e.page.body, l);
    assert SlugsOf(w.entries) == AllSlugs(w.ingests.pages);
  }

  /** From a plan to the link table: at such a moment every planned link of a page to another stored page is
      an explicit link row, unless an end of it was archived since. The target must be a slug that survives
      being read back: linkable, its own slug, and no link of the page with another slug folds like it. */
  lemma PlannedLinksAreRows(t: Tools, embed: string -> Vec, casefold: string -> string, n: nat, worlds: seq<World>,
                            labels: seq<Label>, m: nat, key: PageKey, l: string)
    requires Run(t, embed, n, worlds, labels) && m < |worlds| && worlds[m].seen == worlds[m].ingests.pages
    requires key in worlds[m].ingests.pages
    requires FirstSeen(worlds[m].ingests.pages, Entry(key.kind, worlds[m].ingests.pages[key]))
    requires key in worlds[m].ingests.drafts && l in worlds[m].ingests.drafts[key].links
    requires l in AllSlugs(worlds[m].ingests.pages) && l != key.slug && LinkableSlug(l) && t.slugify(l) == l
    requires ExtractsWikilinks(t, casefold)
    requires FoldSafe(casefold, t.slugify, worlds[m].ingests.pages[key].body, l)
    ensures (key.slug, l) in MutualPairs(worlds[m].db, AllSlugs(worlds[m].ingests.pages))
      <==> key.slug !in worlds[m].archived && l !in worlds[m].archived
  {
    RunKeeps(t, embed, n, worlds, labels, m);
    var s := worlds[m].ingests;
    PlannedLinkIsRead(t, s, key, l);
    ReadLinkIsTarget(casefold, t.slugify, s.pages[key].body, l);
    LinkRowIff(t, embed, casefold, n, worlds, labels, m, Entry(key.kind, s.pages[key]), l);
  }

  lemma PlannedLinkIsRead(t: Tools, s: C.State, key: PageKey, l: string)
    requires C.Inv(I.RulesFor(t.slugify), s) && key in s.pages
    requires key in s.drafts && l in s.drafts[key].links && LinkableSlug(l)
    ensures s.pages[key].slug == key.slug && HasLink(s.pages[key].body, l)
  {
    var d := s.drafts[key];
    assert C.PageOk(I.RulesFor(t.slugify), key, s.pages[key], d);
    PlannedLinksAreRead(Sanitize(t.slugify, d.valid, d.raw), d.links, l);
  }

  // ---------------------------------------------------------------- bounded wait

  lemma StepEvolves(t: Tools, embed: string -> Vec, w: World, w': World, l: Label)
    requires PipelineInv(t, embed, w) && Step(t, embed, w, w', l)
    ensures Evolves(embed, w.db, w'.db)
  {
    EvolvesSelf(embed, w.db);
    match l
    case Mirror(i, entries, reported) => MirrorEvolves(t, embed, w.db, entries);
    case Archive(slug) => SameChunks(embed, w.db, w.db, w'.db);
    case CommitBatch(k, vectors) =>
      assert PickOk(embed, w, k);
      CommitEvolves(embed, w.picks[k].from, w.db, w.picks[k].batch, vectors);
    case _ =>
  }

  lemma RunEvolves(t: Tools, embed: string -> Vec, n: nat, worlds: seq<World>, labels: seq<Label>, i: nat, j: nat)
    requires Run(t, embed, n, worlds, labels) && i <= j < |worlds|
    ensures Evolves(embed, worlds[i].db, worlds[j].db)
  {
    var history := seq(|worlds|, x requires 0 <= x < |worlds| => worlds[x].db);
    forall k: nat | k < |labels|
      ensures Evolves(embed, history[k], history[k + 1])
    {
      RunKeeps(t, embed, n, worlds, labels, k);
      StepEvolves(t, embed, worlds[k], worlds[k + 1], labels[k]);
    }
    RunKeeps(t, embed, n, worlds, labels, i);
    EvolvesAlong(embed, history, i, j);
  }

  lemma {:induction false} PickStays(t: Tools, embed: string -> Vec, n: nat, worlds: seq<World>, labels: seq<Label>,
                                     i: nat, j: nat)
    requires Run(t, embed, n, worlds, labels) && i <= j < |worlds|
    ensures worlds[i].picks <= worlds[j].picks
    decreases j
  {
    if i < j {
      PickStays(t, embed, n, worlds, labels, i, j - 1);
      assert Step(t, embed, worlds[j - 1], worlds[j], labels[j - 1]);
      assert worlds[j - 1].picks <= worlds[j].picks;
    }
  }

  /** A successful backfill run: the step that selects its batch and the step that commits it. */
  datatype Backfilled = Backfilled(picked: nat, committed: nat)

  predicate IsBackfill(batch: nat, worlds: seq<World>, labels: seq<Label>, b: Backfilled) {
    && b.picked < b.committed < |labels| && |worlds| == |labels| + 1
    && labels[b.picked] == PickBatch(batch)
    && labels[b.committed].CommitBatch? && labels[b.committed].k == |worlds[b.picked].picks|
  }

  /** Each of these runs selects after the one before has committed; others may overlap with them. */
  predicate OneAfterAnother(batch: nat, worlds: seq<World>, labels: seq<Label>, runs: seq<Backfilled>,
                            from: nat, to: nat) {
    && (forall i | 0 <= i < |runs| ::
         IsBackfill(batch, worlds, labels, runs[i]) && from <= runs[i].picked && runs[i].committed < to)
    && forall i | 0 < i < |runs| :: runs[i - 1].committed < runs[i].picked
  }

  /** What a run does, from the state it selects in to the state after its commit, is a run of the backfill. */
  lemma BackfillIsRun(t: Tools, embed: string -> Vec, n: nat, batch: nat, worlds: seq<World>,
                      labels: seq<Label>, b: Backfilled)
    requires Run(t, embed, n, worlds, labels) && IsBackfill(batch, worlds, labels, b)
    ensures Backfill.Run(embed, batch, worlds[b.picked].db, worlds[b.committed + 1].db)
  {
    var a, mid := worlds[b.picked], worlds[b.committed];
    var k, vectors := labels[b.committed].k, labels[b.committed].vectors;
    assert Step(t, embed, a, worlds[b.picked + 1], labels[b.picked]);
    assert worlds[b.picked + 1].picks[k] == Pick(a.db, batch);
    PickStays(t, embed, n, worlds, labels, b.picked + 1, b.committed);
    assert Step(t, embed, mid, worlds[b.committed + 1], labels[b.committed]);
    RunEvolves(t, embed, n, worlds, labels, b.picked, b.committed);
    var rows := FirstPending(a.db.chunks, batch);
    assert Evolves(embed, a.db, mid.db) && Answers(embed, rows, vectors);
    assert worlds[b.committed + 1].db == mid.db.(chunks := Assigned(mid.db.chunks, rows, vectors));
  }

  lemma IdsStayInOrder(t: Tools, embed: string -> Vec, n: nat, worlds: seq<World>, labels: seq<Label>, i: nat, j: nat)
    requires Run(t, embed, n, worlds, labels) && i <= j < |worlds|
    ensures IdsInOrder(worlds[i].db) && worlds[i].db.nextChunk <= worlds[j].db.nextChunk
  {
    RunKeeps(t, embed, n, worlds, labels, i);
    RunEvolves(t, embed, n, worlds, labels, i, j);
  }

  /** A row still pending after a backfill run has moved up by a batch since the run selected. */
  lemma OneRunAdvances(t: Tools, embed: string -> Vec, n: nat, batch: nat, worlds: seq<World>, labels: seq<Label>,
                       b: Backfilled, to: nat, id: nat)
    requires Run(t, embed, n, worlds, labels) && IsBackfill(batch, worlds, labels, b) && b.committed < to < |worlds|
    requires id < worlds[b.picked].db.nextChunk && IsPending(worlds[to].db.chunks, id)
    ensures IsPending(worlds[b.picked].db.chunks, id)
    ensures |OlderPending(worlds[to].db.chunks, id)| + batch <= |OlderPending(worlds[b.picked].db.chunks, id)|
  {
    IdsStayInOrder(t, embed, n, worlds, labels, b.picked, b.committed + 1);
    Quieter(t, embed, n, worlds, labels, b.committed + 1, to, id);
    MovesUp(t, embed, n, batch, worlds, labels, b, id);
  }

  lemma MovesUp(t: Tools, embed: string -> Vec, n: nat, batch: nat, worlds: seq<World>, labels: seq<Label>,
                b: Backfilled, id: nat)
    requires Run(t, embed, n, worlds, labels) && IsBackfill(batch, worlds, labels, b)
    requires id < worlds[b.picked].db.nextChunk && IsPending(worlds[b.committed + 1].db.chunks, id)
    ensures var before, after := worlds[b.picked].db.chunks, worlds[b.committed + 1].db.chunks;
      IsPending(before, id) && |OlderPending(after, id)| + batch <= |OlderPending(before, id)|
  {
    IdsStayInOrder(t, embed, n, worlds, labels, b.picked, b.committed + 1);
    BackfillIsRun(t, embed, n, batch, worlds, labels, b);
    RankDrops(embed, batch, worlds[b.picked].db, worlds[b.committed + 1].db, id);
  }

  lemma RankDrops(embed: string -> Vec, batch: nat, a: Db, b: Db, id: nat)
    requires IdsInOrder(a) && Backfill.Run(embed, batch, a, b) && id < a.nextChunk && IsPending(b.chunks, id)
    ensures IsPending(a.chunks, id) && |OlderPending(b.chunks, id)| + batch <= |OlderPending(a.chunks, id)|
  {
    Backfill.RunEvolves(embed, batch, a, b);
    EvolvingKeepsRank(embed, a, b, id);
    RunAdvances(embed, batch, a, b, id);
  }

  /** A row still pending at the end has moved up by a batch with each of the runs. */
  lemma {:induction false} WaitIsBounded(t: Tools, embed: string -> Vec, n: nat, batch: nat, worlds: seq<World>,
                                         labels: seq<Label>, runs: seq<Backfilled>, from: nat, to: nat, id: nat)
    requires Run(t, embed, n, worlds, labels) && from <= to < |worlds|
    requires OneAfterAnother(batch, worlds, labels, runs, from, to)
    requires id < worlds[from].db.nextChunk && IsPending(worlds[to].db.chunks, id)
    ensures |OlderPending(worlds[to].db.chunks, id)| + Advance(|runs|, batch)
      <= |OlderPending(worlds[from].db.chunks, id)|
    decreases |runs|
  {
    if runs == [] {
      Quieter(t, embed, n, worlds, labels, from, to, id);
    } else {
      var last, front := runs[|runs| - 1], runs[..|runs| - 1];
      IdsStayInOrder(t, embed, n, worlds, labels, from, last.picked);
      OneRunAdvances(t, embed, n, batch, worlds, labels, last, to, id);
      FrontInOrder(batch, worlds, labels, runs, from, to);
      WaitIsBounded(t, embed, n, batch, worlds, labels, front, from, last.picked, id);
    }
  }

  lemma FrontInOrder(batch: nat, worlds: seq<World>, labels: seq<Label>, runs: seq<Backfilled>, from: nat, to: nat)
    requires OneAfterAnother(batch, worlds, labels, runs, from, to) && runs != []
    ensures OneAfterAnother(batch, worlds, labels, runs[..|runs| - 1], from, runs[|runs| - 1].picked)
  {
    var front := runs[..|runs| - 1];
    forall i | 0 <= i < |front|
      ensures front[i].committed < runs[|runs| - 1].picked
    {
      RunsInOrder(batch, worlds, labels, runs, from, to, i, |runs| - 1);
    }
  }

  lemma {:induction false} RunsInOrder(batch: nat, worlds: seq<World>, labels: seq<Label>, runs: seq<Backfilled>,
                                       from: nat, to: nat, i: nat, j: nat)
    requires OneAfterAnother(batch, worlds, labels, runs, from, to) && i < j < |runs|
    ensures runs[i].committed < runs[j].picked
    decreases j
  {
    if i < j - 1 {
      RunsInOrder(batch, worlds, labels, runs, from, to, i, j - 1);
      assert IsBackfill(batch, worlds, labels, runs[j - 1]);
    }
  }

  /** Over any stretch of a run a row that is still pending was pending, with no fewer rows before it. */
  lemma Quieter(t: Tools, embed: string -> Vec, n: nat, worlds: seq<World>, labels: seq<Label>, i: nat, j: nat, id: nat)
    requires Run(t, embed, n, worlds, labels) && i <= j < |worlds|
    requires id < worlds[i].db.nextChunk && IsPending(worlds[j].db.chunks, id)
    ensures IsPending(worlds[i].db.chunks, id)
    ensures |OlderPending(worlds[j].db.chunks, id)| <= |OlderPending(worlds[i].db.chunks, id)|
  {
    RunEvolves(t, embed, n, worlds, labels, i, j);
    EvolvingKeepsRank(embed, worlds[i].db, worlds[j].db, id);
    SubsetSize(OlderPending(worlds[j].db.chunks, id), OlderPending(worlds[i].db.chunks, id));
  }

  /** A pending row with `r` older pending rows has its vector, or is gone, once `r / batch + 1` successful
      backfill runs have followed one another, whatever mirrors, archivings and other runs go on beside. */
  lemma EmbeddedWithinBound(t: Tools, embed: string -> Vec, n: nat, batch: nat, worlds: seq<World>, labels: seq<Label>,
                            runs: seq<Backfilled>, from: nat, to: nat, id: nat)
    requires Run(t, embed, n, worlds, labels) && from <= to < |worlds|
    requires OneAfterAnother(batch, worlds, labels, runs, from, to)
    requires batch > 0 && id < worlds[from].db.nextChunk
    requires |runs| >= |OlderPending(worlds[from].db.chunks, id)| / batch + 1
    ensures !IsPending(worlds[to].db.chunks, id)
  {
    if IsPending(worlds[to].db.chunks, id) {
      WaitIsBounded(t, embed, n, batch, worlds, labels, runs, from, to, id);
      EnoughRuns(|OlderPending(worlds[from].db.chunks, id)|, |runs|, batch);
      assert false;
    }
  }
}
