/** The ingest workflow: activities in their order, each of which may fail for good. */
module Workflow {
  import opened Strings
  import opened Bundle
  import opened Resolve
  import opened Relate
  import opened Ingest
  import opened Store
  import opened Mirror
  import opened Backfill
  import opened Redaction
  import Tables

  datatype Activity = Load | Transcribe | Redacting | Ingesting | Mirroring | Embedding

  /** What loading a raw document gives: text, or a need to have an image transcribed first. */
  datatype Loaded = Loaded(text: string, needsExtraction: bool, uri: Option<string>)

  datatype Summary = Summary(source: string, created: seq<string>, updated: seq<string>)

  /** The world the activities talk to. */
  datatype Services = Services(slugify: string -> string, tools: Tools, unicode: Unicode, loaded: Loaded,
                               transcript: string, extract: string -> Extraction, answer: Option<Answer>,
                               compose: (PageOp, Option<string>) -> string, today: string, enabled: bool, batch: nat,
                               client: seq<string> -> Option<seq<Vec>>)

  /** The activities that fail for good, how many pages a failing ingest still writes, and whether a
      failing embed is a cancellation. */
  datatype Faults = Faults(down: set<Activity>, written: nat, cancelled: bool)

  function TextOf(v: Services): string {
    if v.loaded.needsExtraction then v.transcript else v.loaded.text
  }

  function RedactedText(v: Services): string {
    CardPass(v.unicode, EmailPass(v.unicode, TextOf(v)))
  }

  /** The activities before the ingest come through. */
  predicate ReachesIngest(v: Services, f: Faults) {
    Load !in f.down && (v.loaded.needsExtraction ==> Transcribe !in f.down) && Redacting !in f.down
  }

  /** Which of the activities before the ingest ends a run that does not reach it. */
  function FirstOf(down: set<Activity>, needsExtraction: bool): Activity {
    if Load in down then Load else if needsExtraction && Transcribe in down then Transcribe else Redacting
  }

  predicate ReachesMirror(v: Services, f: Faults) {
    ReachesIngest(v, f) && Ingesting !in f.down
  }

  /** The pages an ingest of the redacted text prepares. */
  ghost predicate Prepares(v: Services, before: Pages, source: string, prepared: seq<Prepared>) {
    var x := v.extract(RedactedText(v));
    && source == SourceSlug(v.slugify, None, x)
    && exists hints: Hints ::
         var ops := Plan(Context(v.slugify, before, hints.aliases, source), x, hints.related);
         && Answered(before, source, v.answer, hints)
         && IsComposed(RulesFor(v.slugify), x, ops, source, ValidSlugs(ops, before), v.loaded.uri, v.today,
                       Proses(v.compose, ops, before), prepared)
  }

  ghost predicate Ingested(v: Services, before: Pages, after: Pages, sum: Summary) {
    exists prepared ::
      && Prepares(v, before, sum.source, prepared) && after == WriteAll(before, prepared, v.today)
      && sum.created == Ingest.Slugs(NewKeys(before, prepared, v.today))
      && sum.updated == Ingest.Slugs(OldKeys(before, prepared, v.today))
  }

  /** A failing ingest wrote the first so many of its pages. */
  ghost predicate BrokeOff(v: Services, f: Faults, before: Pages, after: Pages) {
    exists source, prepared ::
      && Prepares(v, before, source, prepared)
      && after == WriteAll(before, prepared[..if f.written < |prepared| then f.written else |prepared|], v.today)
  }

  /** Load, transcribe if need be, redact, ingest, mirror, embed. A failed embed is let go unless it is a
      cancellation; any other failure ends the run there. */
  method Run(v: Services, bundle: OkfBundle, s: Session, f: Faults)
    returns (result: Result<Summary, Activity>, ghost entries: seq<Entry>)
    requires WellFormed(bundle.pages)
    modifies bundle, s
    ensures !ReachesIngest(v, f) ==> bundle.pages == old(bundle.pages) && s.View() == old(s.View())
    ensures !ReachesIngest(v, f) ==> result == Err(FirstOf(f.down, v.loaded.needsExtraction))
    ensures ReachesIngest(v, f) && Ingesting in f.down ==>
      && result == Err(Ingesting) && BrokeOff(v, f, old(bundle.pages), bundle.pages) && s.View() == old(s.View())
    ensures Grows(old(bundle.pages), bundle.pages)
    ensures result.Ok? ==> Ingested(v, old(bundle.pages), bundle.pages, result.ok)
    ensures ReachesMirror(v, f) && Mirroring in f.down ==> result == Err(Mirroring) && s.View() == old(s.View())
    ensures ReachesMirror(v, f) && Mirroring !in f.down ==>
      Collected(bundle.pages, entries) && Indexed(v, f, old(s.View()), s.View(), entries)
    ensures result.Ok? <==> ReachesMirror(v, f) && Mirroring !in f.down && !(Embedding in f.down && f.cancelled)
    ensures ReachesMirror(v, f) && Mirroring !in f.down && result.Err? ==> result.error == Embedding
  {
    entries := [];
    var text := FetchText(v, f);
    if text.Err? {
      GrowsItself(bundle.pages);
      return Err(text.error), entries;
    }
    if Redacting in f.down {
      GrowsItself(bundle.pages);
      return Err(Redacting), entries;
    }
    var redacted, _ := Redact(v.unicode, text.ok);
    if Ingesting in f.down {
      BreakOff(v, f, bundle, redacted);
      return Err(Ingesting), entries;
    }
    var sum := IngestRedacted(v, bundle, redacted);
    if Mirroring in f.down {
      return Err(Mirroring), entries;
    }
    entries := MirrorAndEmbed(v, f, bundle, s);
    if Embedding in f.down && f.cancelled {
      return Err(Embedding), entries;
    }
    return Ok(sum), entries;
  }

  /** The text to redact: as loaded, or transcribed where it has to be. */
  method FetchText(v: Services, f: Faults) returns (text: Result<string, Activity>)
    ensures text.Ok? <==> Load !in f.down && (v.loaded.needsExtraction ==> Transcribe !in f.down)
    ensures text.Ok? ==> text.ok == if v.loaded.needsExtraction then v.transcript else v.loaded.text
    ensures text.Err? ==> text.error == if Load in f.down then Load else Transcribe
  {
    if Load in f.down {
      return Err(Load);
    }
    if !v.loaded.needsExtraction {
      return Ok(v.loaded.text);
    }
    if Transcribe in f.down {
      return Err(Transcribe);
    }
    return Ok(v.transcript);
  }

  /** What mirroring and embedding leave in the tables: the mirrored ones but for chunk vectors, in sync. */
  ghost predicate Indexed(v: Services, f: Faults, before: Db, after: Db, entries: seq<Entry>) {
    && after == Mirrored(v.tools, before, entries).(chunks := after.chunks)
    && (Embedding in f.down ==> after.chunks == Mirrored(v.tools, before, entries).chunks)
    && (Inv(v.tools, before) ==> AllSynced(v.tools, after, entries))
  }

  method MirrorAndEmbed(v: Services, f: Faults, bundle: OkfBundle, s: Session) returns (ghost entries: seq<Entry>)
    requires WellFormed(bundle.pages)
    modifies s
    ensures Collected(bundle.pages, entries) && Indexed(v, f, old(s.View()), s.View(), entries)
  {
    var collected := CollectPages(bundle);
    entries := collected;
    var _, _ := MirrorBundle(v.tools, s, collected);
    if Embedding !in f.down {
      EmbedStep(v, s, entries, old(s.View()));
    } else if Inv(v.tools, old(s.View())) {
      EmbeddedStaysSynced(v.tools, old(s.View()), entries, [], []);
    }
  }

  method EmbedStep(v: Services, s: Session, ghost entries: seq<Entry>, ghost db: Db)
    requires Mirror.DistinctSlugs(entries) && s.View() == Mirrored(v.tools, db, entries)
    modifies s`chunks
    ensures Inv(v.tools, db) ==> AllSynced(v.tools, s.View(), entries)
  {
    ghost var rows := FirstPending(s.chunks, v.batch);
    ghost var reply := v.client(seq(|rows|, k requires 0 <= k < |rows| => rows[k].text));
    ghost var before := s.View();
    var _, _ := EmbedBackfill(s, v.enabled, v.batch, v.client);
    assert EmbedOutcome(before, s.View(), rows, reply);
    if Inv(v.tools, db) {
      OutcomeStaysSynced(v.tools, db, entries, rows, reply, s.View());
    }
  }

  /** A backfill changes nothing, or assigns what the client answered. */
  predicate EmbedOutcome(before: Db, after: Db, rows: seq<Chunk>, reply: Option<seq<Vec>>) {
    after == before || (reply.Some? && after == before.(chunks := Assigned(before.chunks, rows, reply.value)))
  }

  lemma OutcomeStaysSynced(t: Tools, db: Db, entries: seq<Entry>, rows: seq<Chunk>, reply: Option<seq<Vec>>, after: Db)
    requires Inv(t, db) && Mirror.DistinctSlugs(entries) && EmbedOutcome(Mirrored(t, db, entries), after, rows, reply)
    ensures AllSynced(t, after, entries)
  {
    EmbeddedStaysSynced(t, db, entries, rows, if reply.Some? then reply.value else []);
  }

  method IngestRedacted(v: Services, bundle: OkfBundle, redacted: string) returns (sum: Summary)
    requires WellFormed(bundle.pages) && redacted == RedactedText(v)
    modifies bundle
    ensures Ingested(v, old(bundle.pages), bundle.pages, sum) && Grows(old(bundle.pages), bundle.pages)
    ensures WellFormed(bundle.pages)
  {
    var x := v.extract(redacted);
    var source, created, updated, hints, prepared :=
      IngestSource(bundle, v.slugify, x, None, v.answer, v.compose, v.loaded.uri, v.today);
    sum := Summary(source, created, updated);
    assert Prepares(v, old(bundle.pages), source, prepared);
    StaysWellFormed(old(bundle.pages), prepared, v.today);
  }

  /** An ingest that fails while it writes. */
  method BreakOff(v: Services, f: Faults, bundle: OkfBundle, redacted: string)
    requires redacted == RedactedText(v)
    modifies bundle
    ensures BrokeOff(v, f, old(bundle.pages), bundle.pages) && Grows(old(bundle.pages), bundle.pages)
  {
    var x := v.extract(redacted);
    var source, prepared, hints :=
      PrepareSource(bundle, v.slugify, x, None, v.answer, v.compose, v.loaded.uri, v.today);
    assert Prepares(v, bundle.pages, source, prepared);
    var n := if f.written < |prepared| then f.written else |prepared|;
    WriteAllGrows(bundle.pages, prepared[..n], v.today);
    var _, _ := WritePrepared(bundle, prepared[..n], v.today);
  }

  /** No model is shown an address or a card number: what is extracted from holds neither. */
  lemma ModelsSeeNoSecrets(v: Services)
    ensures !HasEmail(v.unicode, RedactedText(v)) && !HasCard(v.unicode, RedactedText(v))
  {
    RedactionComplete(v.unicode, TextOf(v));
  }

  lemma GrowsItself(b: Pages)
    ensures Grows(b, b)
  {
  }

  lemma {:induction false} StaysWellFormed(b: Pages, prepared: seq<Prepared>, today: string)
    requires WellFormed(b)
    ensures WellFormed(WriteAll(b, prepared, today))
  {
    if prepared != [] {
      StaysWellFormed(b, prepared[..|prepared| - 1], today);
    }
  }

  /** Pages synced by a mirror stay so under the embed step that follows. */
  lemma EmbeddedStaysSynced(t: Tools, db: Db, entries: seq<Entry>, rows: seq<Chunk>, vectors: seq<Vec>)
    requires Inv(t, db) && Mirror.DistinctSlugs(entries)
    ensures var once := Mirrored(t, db, entries);
      AllSynced(t, once, entries) && AllSynced(t, once.(chunks := Assigned(once.chunks, rows, vectors)), entries)
  {
    var once := Mirrored(t, db, entries);
    MirrorSyncs(t, db, entries);
    forall k | 0 <= k < |entries|
      ensures Synced(t, once.(chunks := Assigned(once.chunks, rows, vectors)), entries[k])
    {
      assert Synced(t, once, entries[k]);
      Tables.EmbedKeepsViews(once, rows, vectors, entries[k].Slug());
    }
  }
}
