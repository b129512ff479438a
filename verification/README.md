# Verification of the knowledge pipeline

A Dafny model of k7e's knowledge pipeline and proofs of what it promises. `dafny verify dfyconfig.toml` checks
everything.

## What is modelled

One module per component, in the form its source has: loops over tables and pages are methods proved against
specification functions, stores are classes with mutable fields, protocols are transition systems.

- **Pages** (`Okf`, `Bundle`): the page format with its text form, and the bundle as a map from type and slug to page.
- **Ingest** (`Resolve`, `Relate`, `Links`, `Wikilinks`, `Ingest`): extraction to plan, validated hints, wikilinks,
  composing and the locked merge-and-write. `Concurrent` runs any number of ingests interleaved step by step: planning and
  composing read the bundle without the lock, pages are written one at a time and then logged under it, attempts fail
  anywhere and are retried.
- **Index** (`Store`, `Mirror`, `Versioning`, `Backfill`, `Tables`): the item, version, chunk, tag and link tables, the
  incremental mirror, the legacy upsert, archiving, the embedding backfill, and runs of all of them. `MirroredPages`
  says column by column what a mirror shows.
- **Workflow** (`Workflow`, `Pipeline`): the activity order of one ingest workflow, and the whole pipeline as
  interleaved workflows beside scheduled backfills and archivings.
- **Reading** (`Rbac`, `Teams`, `Search`, `GraphView`, `EdgeCollapse`): who may read and write what, team membership
  and grants, hybrid search with expansion (`SearchScores` for what scores what), graph components, edge collapse.
- **Texts** (`Chunking`, `Redaction`, `Strings`): chunking with overlap, redaction by two regular expressions, and the
  Python string functions they need.

Parameters, arbitrary in every theorem: the slug function, wikilink extraction and tag normalization as the mirror uses
them (the theorems that follow a link of a page into the link table fix the extraction to the modelled one), the YAML
library, the language model's answers, the embedding function, the Unicode tables behind `\w` and `\d`.

## Where the code and its words differ

The model follows the code.

- The edge collapse says it keeps the stronger score when a pair becomes explicit (`apps/api/src/k7e_api/routers/graph.py:147`).
  It does not when a stronger similarity row follows an explicit one: `EdgeCollapse.ScoreDependsOnOrder`, and
  `EdgeCollapse.ScoreIgnoresOrderIff` for exactly when order does not matter. No code here writes such rows: explicit ones
  score 1.0 (`apps/api/src/k7e_api/okf_mirror.py:347-355`), and then explicit pairs are safe: `EdgeCollapse.ExplicitOneSettles`.
- Owners are said to carry an admin grant (`apps/api/src/k7e_api/models.py:199-206`). A member added later with the role
  owner gets none: `Teams.JoiningGrantsAdminsOnly`.
- The sanitizer says it leaves no broken inline link (`apps/api/src/k7e_api/okf_ingest.py:35-41`). Nested brackets leave
  one, and so do stray brackets that meet around a link shown as nothing: `Links.NestedBracketsLeaveALink`,
  `Links.StrayBracketsMeet`; `Links.SanitizedIsClean` says exactly when none is left.
- Removing a member is said to cut access immediately (`apps/api/src/k7e_api/teams.py:93-95`). It does exactly when the
  identity provider does not declare the team group itself: `Teams.RemovalCutsAccess`.
- A serialized page parses back except for extra frontmatter keys with a null value: `Okf.ParseSerialize`.
- The generated section is said to guarantee the planned links (`apps/api/src/k7e_api/okf_ingest.py:23-24`). An attempt
  that breaks off between two page writes leaves dangling ones exactly if a page it had yet to write is not stored:
  `Ingest.BrokenOffDanglesIff`; over whole runs a page dangles exactly through such pages: `Concurrent.DraftsAreGrounded`.
- The log is to name the pages an ingest created (`apps/api/src/k7e_api/okf_ingest.py:168-174`). A page first written by
  an attempt that failed before its log entry is named by nobody, ever, and only such a page; a failure behind the entry
  loses nothing: `Concurrent.BrokenRunLosesAPage`, `Concurrent.CreatedByExactlyOne`, `Concurrent.LogIsFinal`.
- Each commit precedes its own mirror (`apps/worker/src/k7e_worker/workflows.py:105-115`), yet the index stays behind when
  the last writer's mirror fails for good: `Pipeline.LastMirrorMayFail`, and `Pipeline.SyncedIffSeenAlike` for exactly
  which pages it shows.
- Link targets are said to be collapsed when they differ in case (`apps/api/src/k7e_api/wikilinks.py:29-32`). Case folding
  joins more than slugs do ("ſ" folds like "s" and stays itself in a slug), so a link to a slug is lost when every link of
  the page to it comes after one that folds alike and has another slug, as the second in `[[baſic]][[basic]]`:
  `Wikilinks.FoldedTwinIsLost`. `Wikilinks.TargetIff` and `Pipeline.LinkRowIff` say exactly which links are kept.

## Model

| member | source | states |
|---|---|---|
| `Okf.ParseSerialize` | apps/api/src/k7e_api/okf.py:95-117 | Parsing a serialized page gives the same frontmatter and the stripped body, whatever `---` rules the body holds; this holds exactly when no extra frontmatter key is null (nulls are dropped on output). Needs a YAML dump that loads back, is not blank and starts no later line with three dashes |
| `Okf.SerializeIsFixedPoint` | apps/api/src/k7e_api/okf.py:98-117 | Serializing the parsed page gives the very same text again |
| `Okf.ValidateDump` | apps/api/src/k7e_api/okf.py:69-84 | Validating what the frontmatter model dumps gives it back if and only if no extra key is null |
| `Okf.FenceBehindHead` | apps/api/src/k7e_api/okf.py:95-111 | In a serialized page the non-greedy pattern closes at the fence behind the YAML head, not at a rule of dashes further down |
| `Okf.FenceExact` | apps/api/src/k7e_api/okf.py:95-107 | On any text the search for the front matter finds a match exactly if there is one, with the head opening at the last line break the leading white space allows and closing at the first fence behind it |
| `Okf.MissingIff` | apps/api/src/k7e_api/okf.py:104-107 | A text is refused as having no front matter exactly if it has no such match anywhere |
| `Okf.PageOfExact` | apps/api/src/k7e_api/okf.py:108-117 | YAML that does not load and data of the wrong types are refused, each with its own error, and nothing else is |
| `Okf.ValidateExact` | apps/api/src/k7e_api/okf.py:69-84 | Data validates if and only if type and title are texts and every other known key has its type; then every field is that of its key, missing ones empty, and all other keys are kept as extras |
| `Bundle.OkfBundle.ListPages` | apps/api/src/k7e_api/okf_bundle.py:68-74 | Lists exactly the slugs of one type |
| `Bundle.OkfBundle.ReadPage` | apps/api/src/k7e_api/okf_bundle.py:57-61 | The page stored under type and slug, or nothing |
| `Bundle.OkfBundle.WritePage` | apps/api/src/k7e_api/okf_bundle.py:63-66 | Stores the page under its type and slug as it will be read back, body stripped, and touches no other page |
| `Resolve.Resolve` | apps/api/src/k7e_api/okf_resolve.py:33-118 | The imperative planner computes the plan: source operation first, then one operation per new child slug |
| `Resolve.Planner.constructor` | apps/api/src/k7e_api/okf_resolve.py:50-58 | Planning starts with nothing planned |
| `Resolve.Planner.Add` | apps/api/src/k7e_api/okf_resolve.py:60-90 | Planning one more name keeps operations, child slugs and planned slugs those of the names seen so far |
| `Resolve.Dedupe` | apps/api/src/k7e_api/okf.py:147-155 | Repeats dropped, first-seen order kept |
| `Resolve.PlannedIff` | apps/api/src/k7e_api/okf_resolve.py:66-72 | A slug gets an operation if and only if some extracted name resolves to it, it is not the source and no other type holds it |
| `Resolve.ChildOpsFromMentions` | apps/api/src/k7e_api/okf_resolve.py:60-95 | Child slugs are planned once, each operation for a name that may have it |
| `Resolve.ChildSlugsExact` | apps/api/src/k7e_api/okf_resolve.py:63-65 | The source links to the slug of every extracted name, planned or not |
| `Resolve.PlanSlugsDistinct` | apps/api/src/k7e_api/okf_resolve.py:58-118 | No two operations of a plan share a slug |
| `Resolve.LinksGoBothWays` | apps/api/src/k7e_api/okf_resolve.py:60-118 | Every child operation links to the source alone and the source links to every child operation |
| `Resolve.PlannedLinksWithin` | apps/api/src/k7e_api/okf_resolve.py:97-118 | Every planned link names an existing or a planned slug |
| `Resolve.NoPlannedLinkDangles` | apps/api/src/k7e_api/okf_resolve.py:60-118 | In any bundle that has the old pages and those of the plan, every planned link leads to a page |
| `Resolve.OneTypeKeptIff` | apps/api/src/k7e_api/okf_resolve.py:52-71 | A bundle with one type per slug stays so under a plan if and only if the source slug is new or already a source |
| `Resolve.ReplayIsStable` | apps/api/src/k7e_api/okf_resolve.py:33-118 | Planning again after the plan was applied, with validated aliases and any related slugs, gives the same operations in the same order, all updates, with equal source links but for a link from the source to itself |
| `Resolve.SourceLinksExact` | apps/api/src/k7e_api/okf_resolve.py:63-118 | The source links to a slug if and only if a name resolves to it, a reference slugifies to it and a concept, entity or source holds it, or it is a related page other than the source; each once |
| `Resolve.SourceLinksInOrder` | apps/api/src/k7e_api/okf_resolve.py:97-118 | Those links stand in the order in which names, then references, then related pages first ask for them |
| `Resolve.ChildOpsExact` | apps/api/src/k7e_api/okf_resolve.py:60-95 | Every further operation is, field by field, the one for the first name that may have its slug, in the order of those names |
| `Resolve.PlannedSlugsExact` | apps/api/src/k7e_api/okf_resolve.py:63-72 | A slug has such an operation if and only if some name resolves to it, it is not the source and no page of another type holds it while none of the name's type does |
| `Resolve.SourceOpExact` | apps/api/src/k7e_api/okf_resolve.py:110-118 | The source operation has title, summary and citations of the extraction, and updates exactly if the source page exists |
| `Relate.RelateExisting` | apps/api/src/k7e_api/okf_relate.py:69-110 | Kept are, in first-seen order and once each, exactly the related texts that name a slug of the shown part of the catalog, and exactly the aliases that point into it |
| `Relate.KeepAliases` | apps/api/src/k7e_api/okf_relate.py:102-108 | Exactly the aliases that point into the catalog are kept |
| `Relate.ExistingCatalog` | apps/api/src/k7e_api/okf_ingest.py:52-62 | The catalog lists every slug of the bundle but the source's, each once |
| `Relate.ValidatedHints` | apps/api/src/k7e_api/okf_relate.py:92-110 | Validated hints name existing pages other than the source |
| `Links.SanitizedIsClean` | apps/api/src/k7e_api/okf_ingest.py:32-49 | After sanitizing, every wikilink readable at any offset has a known slug if and only if nowhere in the body two stray opening brackets meet, links shown as nothing left out, in front of what then reads as a link to an unknown slug |
| `Links.NoStrayMakesNone` | apps/api/src/k7e_api/okf_ingest.py:32-49 | No such place exists where every opening bracket of the body belongs to a wikilink |
| `Links.StoredIsCleanIff` | apps/api/src/k7e_api/okf_ingest.py:23-29 | When the planned links are read back as themselves and name known slugs, every wikilink in the whole stored body, prose and generated section together, has a known slug if and only if that holds of the prose |
| `Links.SanitizeFixedIff` | apps/api/src/k7e_api/okf_ingest.py:35-49 | The sanitizer leaves a text unchanged if and only if every wikilink in it, at any offset, has a known slug |
| `Links.NestedBracketsLeaveALink` | apps/api/src/k7e_api/okf_ingest.py:32-49 | With stray brackets the docstring's claim fails: sanitizing `[[[[a]]]]` leaves `[[a]]`, a link to an unknown slug, for any linkable name a |
| `Links.StrayBracketsMeet` | apps/api/src/k7e_api/okf_ingest.py:32-49 | It also fails where stray brackets meet around a link shown as nothing: `[[[ ]][a]]` becomes `[[a]]`, for any linkable name and any white space |
| `Links.PlannedLinksAreRead` | apps/api/src/k7e_api/okf_ingest.py:23-29 | Every planned slug can be read as a wikilink in the stored body, whatever prose stands before the generated section |
| `Links.LinkIsRead` | apps/api/src/k7e_api/wikilinks.py:20-39 | The wikilink pattern reads back a slug written between double brackets |
| `Links.AliasIsShown` | apps/api/src/k7e_api/okf_ingest.py:32-49 | A link with an alias to an unknown page becomes its alias, stripped, or its name if the alias is empty; to a known page it stays; white space around the name plays no part |
| `Wikilinks.ExtractTargets` | apps/api/src/k7e_api/wikilinks.py:23-39 | The loop over the matches keeps, of names that fold alike, the first spelling, in first-seen order |
| `Wikilinks.LinkIsCaptured` | apps/api/src/k7e_api/wikilinks.py:35-36 | The left-to-right scan comes by every link that can be read at any offset: no match hides another |
| `Wikilinks.KeptExact` | apps/api/src/k7e_api/wikilinks.py:29-39 | A name is kept if and only if it is a first spelling: not blank, and no earlier name folds like it |
| `Wikilinks.KeptInOrder` | apps/api/src/k7e_api/wikilinks.py:29-39 | The kept names stand in the order of their first spellings |
| `Wikilinks.StoredLinksExact` | apps/api/src/k7e_api/okf_ingest.py:23-29 | The links read from a stored body are those of its prose and then, once each and in order, the planned ones, whatever the prose |
| `Wikilinks.TargetIff` | apps/api/src/k7e_api/wikilinks.py:29-39 | A text has a target with a given slug if and only if the first spelling of one of its links slugifies to it |
| `Wikilinks.ReadLinkIsTarget` | apps/api/src/k7e_api/wikilinks.py:35-39 | A link readable in a text is among its targets, if every link of that text that folds like it has its slug |
| `Wikilinks.FoldedTwinIsLost` | apps/api/src/k7e_api/wikilinks.py:38-38 | In the text `[[a]][[b]]`, a and b folding alike with different slugs, the second link can be read and no target leads to it |
| `Ingest.ComposeAll` | apps/api/src/k7e_api/okf_ingest.py:117-150 | One prepared page per operation, its body the sanitized prose with the planned links appended, its frontmatter fresh |
| `Ingest.WritePrepared` | apps/api/src/k7e_api/okf_ingest.py:154-169 | The locked phase leaves the bundle with every prepared page written in order, and reports as created exactly the slugs whose page was not there, as updated the others |
| `Ingest.MergedEndures` | apps/api/src/k7e_api/okf_ingest.py:65-76 | A metadata merge keeps a set creation date, keeps a non-empty title, extends the alias list at its end to the union of both, and takes body and update date from the new page |
| `Ingest.NewKeysExact` | apps/api/src/k7e_api/okf_ingest.py:156-165 | The pages reported as created are exactly those that are there now and were not before |
| `Ingest.WriteAllGrows` | apps/api/src/k7e_api/okf_ingest.py:156-166 | A write phase removes no page, and every page keeps its date, title and alias prefix |
| `Ingest.RelateSource` | apps/api/src/k7e_api/okf_ingest.py:97-107 | Hints are validated or empty; a failed relate call never fails the ingest |
| `Ingest.PrepareSource` | apps/api/src/k7e_api/okf_ingest.py:93-150 | The phase without the lock plans against the bundle with validated hints and composes one page per operation |
| `Ingest.IngestSource` | apps/api/src/k7e_api/okf_ingest.py:79-179 | A whole ingest leaves under every operation of its plan a page with the extraction's tags and domain, the operation's description, sources that name the source page (none and the given resource on the source page itself), what the replaced page had of title, date and aliases, and as body the model's prose for that operation, sanitized, with the planned links; it touches no other page, loses none, and reports each page of the plan once, as created or as updated |
| `Ingest.IngestLeaves` | apps/api/src/k7e_api/okf_ingest.py:117-174 | Writing any composed plan leaves exactly those pages, field by field, for new and for existing ones alike |
| `Ingest.KeysWritten` | apps/api/src/k7e_api/okf_ingest.py:156-168 | The write phase applies the plan: the old pages and one page per operation |
| `Ingest.IngestTwice` | apps/api/src/k7e_api/okf_ingest.py:79-179 | Planning the same extraction after its ingest asks for updates of the very pages written and the same links |
| `Ingest.BrokenOffDanglesIff` | apps/api/src/k7e_api/okf_ingest.py:155-168 | For any bundle that has the pages planned against and any break point: the pages written so far have a dangling planned link if and only if some page yet to be written is not stored |
| `Ingest.BrokenOffWriteDangles` | apps/api/src/k7e_api/okf_ingest.py:155-168 | For instance a first ingest that breaks off after its source page leaves a link to a missing page whenever its plan has another page |
| `Concurrent.StepKeeps` | apps/api/src/k7e_api/okf_ingest.py:79-179 | Every step of every interleaving (relate, resolve, compose, lock, one page write, log entry, unlock, failure before or after the log entry) keeps the invariant of bundle, jobs, lock and log |
| `Concurrent.RunKeeps` | apps/api/src/k7e_api/okf_ingest.py:79-179 | The invariant holds in every state of every run from an empty bundle |
| `Concurrent.PagesEndure` | apps/api/src/k7e_api/okf_ingest.py:65-76 | Between any two moments of a run no page disappears, no creation date changes, no non-empty title changes, and each alias list has its old value as a prefix |
| `Concurrent.CreatedByExactlyOne` | apps/api/src/k7e_api/okf_ingest.py:152-174 | At any moment of any run a stored page is named as created in some log entry if and only if neither the lock holder has yet to log it nor the attempt that first wrote it failed before its log entry; it is then named in exactly one entry, once |
| `Concurrent.LogIsFinal` | apps/api/src/k7e_api/okf_ingest.py:168-174 | No log entry is ever taken back, and a page whose first writer failed before its log entry is named in no later entry either |
| `Concurrent.BrokenRunLosesAPage` | apps/api/src/k7e_api/okf_ingest.py:155-174 | A run in which a first ingest breaks off after its source page: the page is stored while the log is empty, and links to a missing page if the plan has another |
| `Concurrent.DoneRunReports` | apps/api/src/k7e_api/okf_ingest.py:155-174 | A run in which a first ingest completes: its page is stored and the log names it alone |
| `Concurrent.DraftsAreGrounded` | apps/api/src/k7e_api/okf_ingest.py:117-166 | Whenever nobody is writing, in any run with any failures: a page's planned links are all stored if and only if none leads to a page that a broken-off attempt left unwritten and nobody wrote since; likewise for the slugs its inline links were checked against |
| `Concurrent.NoLinkDangles` | apps/api/src/k7e_api/okf_ingest.py:117-137 | Whenever nobody is writing and nothing left over is unwritten: every planned link of every page names a stored page and can be read in its body; and if the planned links are read back as themselves, every wikilink at any offset of the stored body leads to a stored page if and only if no two stray brackets of its prose make a link |
| `Mirror.CollectPages` | apps/api/src/k7e_api/okf_mirror.py:122-142 | One entry per slug of the bundle: the page of the first type directory that holds it |
| `Mirror.NormalizeTags` | apps/api/src/k7e_api/okf_mirror.py:40-49 | Normalized non-empty tags, each once |
| `Mirror.SyncItemTags` | apps/api/src/k7e_api/okf_mirror.py:52-71 | Afterwards the item has exactly the wanted tags and all other items' tags are untouched |
| `Mirror.StoreChunks` | apps/api/src/k7e_api/okf_mirror.py:74-93 | The item's chunk rows are replaced by fresh text-only rows with new ids |
| `Mirror.PrepareItem` | apps/api/src/k7e_api/okf_mirror.py:157-241 | Item created or its type corrected, provenance and domain brought in line, before the skip check |
| `Mirror.MirrorPage` | apps/api/src/k7e_api/okf_mirror.py:154-298 | One turn of the first pass: relabel always, publish a version only if live title or body differ, re-chunk an unchanged page that has no chunks |
| `Mirror.PublishPage` | apps/api/src/k7e_api/okf_mirror.py:269-298 | A new published version with the next number becomes the live one |
| `Mirror.RebuildLinks` | apps/api/src/k7e_api/okf_mirror.py:302-356 | Explicit links touching a synced page are replaced by those the bodies ask for, although only the missing target slugs are looked up; the count is the number of pairs |
| `Mirror.CollectTargets` | apps/api/src/k7e_api/okf_mirror.py:313-321 | Every slug any page of the run links to is looked up |
| `Mirror.LinkPage` | apps/api/src/k7e_api/okf_mirror.py:335-356 | The links of one page: known targets other than itself, pairs already inserted left out |
| `Mirror.MirrorBundle` | apps/api/src/k7e_api/okf_mirror.py:96-363 | The loop computes the two-pass result, and counts exactly the pages that got a version and the link pairs |
| `MirroredPages.MirrorShowsPages` | apps/api/src/k7e_api/okf_mirror.py:157-241 | After a mirror from any tables in the invariant each page's item has the frontmatter's resource as provenance and as source pages, each once and in first-seen order, exactly the slugs of the links in the frontmatter sources; exactly the normalized non-blank tags; type, title, body and domain of the page; and its chunk texts in order |
| `MirroredPages.PagePublishes` | apps/api/src/k7e_api/okf_mirror.py:243-298 | A page whose live version has its title and body gets no version and keeps its status; any other gets a published version with the next number, which becomes live whatever the status was |
| `MirroredPages.FreshRows` | apps/api/src/k7e_api/okf_mirror.py:74-93 | A page that is chunked has one row per chunk of its body, numbered from 0, of its live version, with new ids and without vectors; rows of other items stay as they are |
| `MirroredPages.ChangedAreVersions` | apps/api/src/k7e_api/okf_mirror.py:264-298 | The number of changed pages a mirror reports is the number of versions it adds |
| `MirroredPages.MirroredLinksExact` | apps/api/src/k7e_api/okf_mirror.py:302-356 | After a mirror the link rows are the old ones but explicit ones at a page of the bundle, and one row of relation related and score 1.0 from a page to each other item a link in its body leads to |
| `Mirror.PageSyncs` | apps/api/src/k7e_api/okf_mirror.py:154-298 | After its turn a page is seen in the tables exactly as the bundle has it (type, title, body, domain, tags, provenance, chunk texts) |
| `Mirror.PageKeepsOthers` | apps/api/src/k7e_api/okf_mirror.py:154-298 | A page's turn changes the view of no other item |
| `Mirror.SyncedPageIsFixed` | apps/api/src/k7e_api/okf_mirror.py:247-267 | Mirroring an already synced page changes nothing at all in the tables |
| `Mirror.MirrorSyncs` | apps/api/src/k7e_api/okf_mirror.py:127-356 | From any tables in the invariant, a mirror leaves every page of the bundle in sync |
| `Mirror.MirrorIdempotent` | apps/api/src/k7e_api/okf_mirror.py:96-363 | An immediate second mirror is the identity on all tables and reports no change |
| `Mirror.MirrorFrame` | apps/api/src/k7e_api/okf_mirror.py:302-311 | Similarity links, explicit links with no synced end, and the view of items outside the bundle are untouched |
| `Mirror.MutualLinksExact` | apps/api/src/k7e_api/okf_mirror.py:302-356 | The explicit links among the pages of the bundle are exactly those their bodies ask for |
| `Mirror.MirrorRefinesRebuild` | apps/api/src/k7e_api/okf_mirror.py:127-356 | Incremental mirror refines full rebuild: pages and mutual links end up as if mirrored into empty tables |
| `Mirror.RelinkKeepsKeysUnique` | apps/api/src/k7e_api/okf_mirror.py:332-344 | The rebuild never violates the unique key of the link table |
| `Tables.MirrorRefinesRebuildOverRuns` | apps/api/src/k7e_api/okf_mirror.py:127-356 | The refinement holds from any tables a run of mirrors, backfills and archivings can reach |
| `Tables.MirrorAfterBackfill` | apps/api/src/k7e_api/okf_mirror.py:147-151 | A mirror after a mirror with backfills in between is the identity: no version, every chunk row keeps its vector |
| `Tables.ArchiveKeepsViews` | apps/api/src/k7e_api/lifecycle.py:27-41 | Archiving hides a page from readers without changing its synced columns |
| `Versioning.UpsertItemVersion` | apps/api/src/k7e_api/versioning.py:94-174 | Find or create the item, append a version with the next number, touch the live item only when publishing, a never-published title otherwise |
| `Versioning.UpsertExact` | apps/api/src/k7e_api/versioning.py:94-172 | An upsert appends one version, with the next number and the status that goes with the decision, to the target if one is given and else to the item of the slug; publishing alone makes the item live with that version and title; otherwise an item with a live version keeps all it has, one without takes the title; type, domain, provenance and all other items stay |
| `Versioning.ArchiveItem` | apps/api/src/k7e_api/lifecycle.py:27-40 | Status archived, every link at either end gone, versions and chunks kept |
| `Versioning.ArchiveExact` | apps/api/src/k7e_api/lifecycle.py:27-40 | A link stays exactly if the archived item is at neither end, and nothing but the status of that item changes besides |
| `Versioning.MaxIsCount` | apps/api/src/k7e_api/versioning.py:121-127 | The greatest number of an item equals the number of its versions |
| `Versioning.NumbersAreOneToN` | apps/api/src/k7e_api/versioning.py:121-127 | The version numbers of an item are exactly 1 to n |
| `Versioning.NumbersDiffer` | apps/api/src/k7e_api/versioning.py:121-127 | Later versions of an item have greater numbers |
| `Versioning.UpsertKeepsLifecycle` | apps/api/src/k7e_api/versioning.py:94-172 | An upsert with any decision keeps numbering and live pointer in order |
| `Mirror.PageKeepsLifecycle` | apps/api/src/k7e_api/okf_mirror.py:269-294 | So does the mirror of a page |
| `Versioning.ArchiveKeepsLifecycle` | apps/api/src/k7e_api/lifecycle.py:27-41 | So does archiving |
| `Tables.VersionsOverRuns` | apps/api/src/k7e_api/versioning.py:94-172 | After any run of upserts, mirrors, archivings and backfills: numbers 1 to n; the live version is the item's own, published, its highest published one and carries the item's title; without a live version none was published |
| `Tables.StatusOverRuns` | apps/api/src/k7e_api/lifecycle.py:27-41 | After any such run an item that is not archived is live if and only if it has a live version, and a draft otherwise |
| `Backfill.Select` | apps/worker/src/k7e_worker/embed_backfill.py:66-78 | The first rows without a vector, oldest first, at most a batch |
| `Backfill.Commit` | apps/worker/src/k7e_worker/embed_backfill.py:87-89 | Each selected row gets the vector at its position |
| `Backfill.EmbedBackfill` | apps/worker/src/k7e_worker/embed_backfill.py:59-93 | A disabled, empty or failed run changes nothing; a successful one assigns the batch; both report what remains |
| `Backfill.RemainingCounts` | apps/worker/src/k7e_worker/embed_backfill.py:60-93 | What a run reports as remaining is the number of rows without a vector |
| `Backfill.CommitEvolves` | apps/worker/src/k7e_worker/embed_backfill.py:66-89 | Vectors of rows selected earlier land only on rows whose text they embed, whatever happened during the call |
| `Backfill.EvolvingStaysCoherent` | apps/worker/src/k7e_worker/embed_backfill.py:87-89 | Whatever mirrors and runs do, each stored vector stays the embedding of its own row's text |
| `Backfill.RechunkEvolves` | apps/api/src/k7e_api/okf_mirror.py:74-93 | Re-chunking only drops rows and adds newer ones without vectors |
| `Backfill.MirrorEvolves` | apps/api/src/k7e_api/okf_mirror.py:153-298 | A whole mirror is work a run may overlap with |
| `Backfill.SelectedOrBehind` | apps/worker/src/k7e_worker/embed_backfill.py:66-72 | A pending row is in the batch, or the batch is full of older rows |
| `Backfill.RunAdvances` | apps/worker/src/k7e_worker/embed_backfill.py:60-93 | A row still pending after a successful run has moved up by the whole batch |
| `Backfill.EmbeddedWithinBound` | apps/worker/src/k7e_worker/embed_backfill.py:60-93 | Over a history of runs that do not overlap each other: a pending row with r older pending rows is embedded, or gone, within r / batch + 1 successful runs, however many newer rows arrive |
| `Backfill.OverlappingRunsSelectTheSame` | apps/worker/src/k7e_worker/embed_backfill.py:66-89 | Overlapping runs do not add up: with two pending rows and a batch of one, two overlapping successful runs leave the second row pending |
| `Pipeline.StepKeeps` | apps/worker/src/k7e_worker/workflows.py:75-134 | Every step of ingests, mirrors, backfills, archivings and giving up keeps the pipeline invariant |
| `Pipeline.MirrorKeeps` | apps/worker/src/k7e_worker/workflows.py:111-115 | A workflow's mirror brings the tables in line with the bundle as it stands, whoever wrote it |
| `Pipeline.SyncedIffSeenAlike` | apps/worker/src/k7e_worker/workflows.py:105-134 | At any moment of any run, whatever workflows completed or failed: a page is seen in the tables as the bundle has it if and only if the last mirror found it there showing the same |
| `Pipeline.IndexShowsBundle` | apps/worker/src/k7e_worker/workflows.py:105-115 | Convergence: whenever no page was written since the last mirror, the view of every page is that of mirroring the bundle into empty tables |
| `Pipeline.QuietMeansSeen` | apps/worker/src/k7e_worker/workflows.py:105-115 | That is so from a mirror on until the next page is written, whoever ran the mirror and whichever workflows failed |
| `Pipeline.SyncedWhenNobodyOwes` | apps/worker/src/k7e_worker/workflows.py:105-115 | It is so whenever every workflow that wrote has mirrored since |
| `Pipeline.Converges` | apps/worker/src/k7e_worker/workflows.py:105-134 | It is so when all workflows have completed, in whatever order their steps and retries came |
| `Pipeline.LinksConverge` | apps/worker/src/k7e_worker/workflows.py:105-115 | Whenever no page was written since the last mirror, the explicit links among the pages are exactly those their bodies ask for, less the links of items archived since |
| `Pipeline.GivenUpMirrorLeavesIndexBehind` | apps/worker/src/k7e_worker/workflows.py:105-115 | Convergence fails when the last writer's mirror fails for good: all workflows have finished and the tables show nothing of what was written |
| `Pipeline.LastMirrorMayFail` | apps/worker/src/k7e_worker/workflows.py:105-115 | Such a run exists for any source without entities and concepts: its page is in the bundle and not in the tables |
| `Pipeline.LinkRowIff` | apps/api/src/k7e_api/okf_mirror.py:332-356 | From text to table: once no page was written since the last mirror, a page has an explicit link row to another stored page if and only if the first spelling of one of the links in its body slugifies to it and neither end was archived since |
| `Pipeline.PlannedLinksAreRows` | apps/api/src/k7e_api/okf_mirror.py:332-356 | From plan to table: at such a moment a planned link of a page to another stored page is an explicit link row if and only if neither end was archived since, for slugs that are read back as themselves and that no link of the page with another slug folds like |
| `Pipeline.OneRunAdvances` | apps/worker/src/k7e_worker/embed_backfill.py:60-93 | A row pending at the end of a run has moved up by a batch since a backfill selected, whatever overlapped with it |
| `Pipeline.EmbeddedWithinBound` | apps/worker/src/k7e_worker/embed_backfill.py:60-93 | In the whole pipeline a pending row with r older pending rows is embedded, or gone, once r / batch + 1 successful backfills have each selected after the one before committed, whatever mirrors, archivings and other backfills overlap with them |
| `Pipeline.VectorsStayCoherent` | apps/worker/src/k7e_worker/workflows.py:116-124 | In every state of every run each stored vector embeds its own row's text |
| `Pipeline.LifecycleHolds` | apps/worker/src/k7e_worker/workflows.py:75-134 | In every state of every run version numbers and live pointers are in order |
| `Workflow.Run` | apps/worker/src/k7e_worker/workflows.py:75-134 | Load, transcribe only when needed, redact, ingest, mirror, embed: a failure before the ingest changes nothing, a failing ingest leaves the first so many pages of its batch and the tables alone, a failed mirror leaves the tables alone, a failed embed is let go unless cancelled, no page is ever lost, and after the mirror the tables show the bundle |
| `Workflow.FetchText` | apps/worker/src/k7e_worker/workflows.py:77-94 | The loaded text, or the transcript where one is needed; nothing is transcribed otherwise, and the first activity that failed is the error |
| `Workflow.MirrorAndEmbed` | apps/worker/src/k7e_worker/workflows.py:111-133 | After mirror and embed the tables are the mirrored ones but for chunk vectors, and in sync with the bundle |
| `Workflow.BreakOff` | apps/worker/src/k7e_worker/workflows.py:105-109 | An ingest that fails while writing leaves the first so many pages of what it prepared, and loses none |
| `Workflow.IngestRedacted` | apps/worker/src/k7e_worker/workflows.py:96-109 | What is extracted from and ingested is the redacted text |
| `Workflow.ModelsSeeNoSecrets` | apps/worker/src/k7e_worker/workflows.py:96-109 | The text that is extracted from and ingested holds no address and no card number |
| `Chunking.ChunkMarkdown` | apps/api/src/k7e_api/chunking.py:11-28 | The packing loop computes the chunks of the paragraphs |
| `Chunking.ParagraphsExact` | apps/api/src/k7e_api/chunking.py:12-15 | What is packed are stripped, non-blank stretches without a blank line inside, and together they have all visible characters of the text |
| `Chunking.PackLossless` | apps/api/src/k7e_api/chunking.py:16-28 | Each later chunk starts with the carried overlap, and dropping the overlaps gives the paragraphs joined by blank lines |
| `Chunking.PackKeepsParagraphsWhole` | apps/api/src/k7e_api/chunking.py:18-27 | Chunks are consecutive runs of whole paragraphs behind their overlap; a chunk over the limit holds a single paragraph, and one is closed only because the next paragraph did not fit |
| `Chunking.PackBounded` | apps/api/src/k7e_api/chunking.py:20-25 | No chunk is longer than the greater of the limit and overlap + 2 + the longest paragraph |
| `Chunking.ChunksKeepTheInk` | apps/api/src/k7e_api/chunking.py:11-28 | For every text, undoing the overlaps gives all its visible characters in order |
| `Redaction.Redact` | apps/api/src/k7e_api/redaction.py:22-58 | Two passes in order; a category is listed exactly when its pattern matches somewhere |
| `Redaction.EmailEndExact` | apps/api/src/k7e_api/redaction.py:12-12 | The deterministic scan finds a match at an offset if and only if the email pattern has one there |
| `Redaction.CardEndExact` | apps/api/src/k7e_api/redaction.py:16-16 | Likewise for the card pattern with its word boundaries |
| `Redaction.EmailPassComplete` | apps/api/src/k7e_api/redaction.py:46-50 | After the email pass no substring matches the email pattern |
| `Redaction.CardPassComplete` | apps/api/src/k7e_api/redaction.py:52-56 | After the card pass no substring matches the card pattern |
| `Redaction.RedactionComplete` | apps/api/src/k7e_api/redaction.py:22-58 | The final text holds no address and no card number: the card pass makes no address out of what it rewrites |
| `Redaction.RedactionIdempotent` | apps/api/src/k7e_api/redaction.py:22-58 | Rerunning the email pass, or both, changes nothing |
| `Redaction.SubMasksMatchesOnly` | apps/api/src/k7e_api/redaction.py:46-56 | The output is the input with matches replaced by the placeholder and every other character kept in place |
| `GraphView.NeighborSets` | apps/web/src/graph/graphView.ts:52-63 | Exactly the neighbours of every listed node |
| `GraphView.DegreeMap` | apps/web/src/graph/graphView.ts:15-23 | Each listed node counts the edge ends at it |
| `GraphView.ConnectedComponents` | apps/web/src/graph/graphView.ts:26-49 | Two nodes share a label if and only if a path of edges between known nodes joins them; labels count up from 0 in node order; ids outside the list never merge components; the loop ends |
| `GraphView.Flood` | apps/web/src/graph/graphView.ts:35-45 | The worklist labels everything reachable and leaves every labelled node settled |
| `EdgeCollapse.CollapseEdges` | apps/api/src/k7e_api/routers/graph.py:123-149 | One edge per unordered pair with a surviving row, each the merge of its pair's rows, and the running degree of every node is the number of edge ends at it, as the web view recomputes it |
| `EdgeCollapse.EdgeShownIff` | apps/api/src/k7e_api/routers/graph.py:123-149 | Two nodes share exactly one edge if some row between them, in either direction, has visible ends and no lower score than asked, and none otherwise |
| `EdgeCollapse.EdgeFollowsFirst` | apps/api/src/k7e_api/routers/graph.py:133-149 | An edge has direction and relation of the first such row; its score is that row's or that of an explicit row, and no less than any of these |
| `EdgeCollapse.OriginExact` | apps/api/src/k7e_api/routers/graph.py:133-149 | An edge is explicit if and only if some surviving row of its pair is |
| `EdgeCollapse.CollapseIgnoresOrder` | apps/api/src/k7e_api/routers/graph.py:118-149 | Any permutation of the link rows gives the same pairs, origins and degrees |
| `EdgeCollapse.DegreeCountsPartners` | apps/api/src/k7e_api/routers/graph.py:142-145 | A degree is the number of partners, a loop counted twice |
| `EdgeCollapse.DegreesSumToTwiceEdges` | apps/api/src/k7e_api/routers/graph.py:142-145 | Degrees sum to twice the number of edges |
| `EdgeCollapse.EndsAreShown` | apps/api/src/k7e_api/routers/graph.py:126-129 | Both ends of every edge are visible nodes |
| `EdgeCollapse.ScoreIgnoresOrderIff` | apps/api/src/k7e_api/routers/graph.py:146-149 | The score of a pair does not depend on row order if and only if its explicit rows reach the top score or all its rows tie |
| `EdgeCollapse.ScoreDependsOnOrder` | apps/api/src/k7e_api/routers/graph.py:146-149 | Two rows in two orders give the scores 0.9 and 0.5, against the comment that the stronger score is kept |
| `EdgeCollapse.ExplicitOneSettles` | apps/api/src/k7e_api/routers/graph.py:146-149 | Where explicit rows score 1.0 and no row scores more, a pair with an explicit row shows 1.0 in every order, and any other pair has one score in every order if and only if its rows all score alike |
| `Rbac.CoveredScopes` | apps/api/src/k7e_api/rbac.py:150-196 | The covered id sets admit an item exactly when some viewer-or-higher matching grant names one of its ids |
| `Rbac.VisibleSourceSlugs` | apps/api/src/k7e_api/rbac.py:203-227 | Exactly the slugs of readable sources |
| `Rbac.AllowedItemIds` | apps/api/src/k7e_api/rbac.py:145-240 | The set is exactly the ids of readable items |
| `Rbac.PersonalSpaceIsPrivate` | apps/api/src/k7e_api/rbac.py:203-231 | What may be read of a personal space is read by its owner alone |
| `Rbac.SourceReadableIff` | apps/api/src/k7e_api/rbac.py:203-227 | A source may be read if and only if it is published with a version, its reader is admitted, its space has no other owner, and its group list, if not empty, names public, a group of the reader or the reader's own |
| `Rbac.DerivedReadableIff` | apps/api/src/k7e_api/rbac.py:228-240 | A derived page may be read if and only if it is published with a version, its reader is admitted, its space has no other owner, and every slug it names is that of a source the reader may read |
| `Rbac.AdmittedExact` | apps/api/src/k7e_api/rbac.py:150-196 | Admitted is exactly who has a grant of a known role at the item's organisation, space or project: apps by their own slug, anyone else by name, by a group or by public |
| `Rbac.WalksAgreeIffConsistent` | apps/api/src/k7e_api/rbac.py:190-196 | Read admission and the scope walk agree on every grant if and only if the item's ids are containment-consistent |
| `Rbac.AdmittedIffScopeCovered` | apps/api/src/k7e_api/rbac.py:279-339 | On a consistent item: admitted if and only if a viewer-or-higher grant covers its narrowest scope |
| `Rbac.WritersAreAdmitted` | apps/api/src/k7e_api/routers/items.py:322-330 | Whoever passes the write gate of a containment-consistent item other than by header is admitted for reading |
| `Rbac.GatesNest` | apps/api/src/k7e_api/rbac.py:246-277 | Whoever passes the review or the admin gate passes the write gate |
| `Rbac.GatesExact` | apps/api/src/k7e_api/rbac.py:246-277 | Write, review and admin gate open exactly to a header role that says so, to the local developer, and to a grant covering the scope of editor or more, reviewer or more, and admin |
| `Rbac.ReadableIsMonotone` | apps/api/src/k7e_api/rbac.py:145-240 | More grants never hide a page |
| `Rbac.SourcesOfReadableAreReadable` | apps/api/src/k7e_api/rbac.py:213-239 | Every source a readable derived page names is itself readable |
| `Teams.TeamStore.ProvisionTeam` | apps/api/src/k7e_api/teams.py:53-87 | Space, team, group grant, owner grant and membership, or a refusal that changes nothing |
| `Teams.TeamStore.AddMember` | apps/api/src/k7e_api/routers/teams.py:167-201 | The checks in their order, then the membership and an admin grant for admins only |
| `Teams.TeamStore.RemoveMember` | apps/api/src/k7e_api/routers/teams.py:203-235 | The checks in their order, then the membership and its admin grant go |
| `Teams.TeamStore.FindTeam` | apps/api/src/k7e_api/routers/teams.py:72-78 | The team a slug names, or none |
| `Teams.OutcomesExact` | apps/api/src/k7e_api/routers/teams.py:167-235 | Adding and removing are refused as needing an admin exactly for callers without the admin header, the developer pass and an admin grant at the team space or its organisation; every other refusal and success is exact too |
| `Teams.ManagersAreAdmins` | apps/api/src/k7e_api/routers/teams.py:167-235 | Whoever manages a team in a reachable state has the header, is the developer, is an owner or admin of the team, or has an admin grant at the organisation |
| `Teams.MembersMayWrite` | apps/api/src/k7e_api/teams.py:53-87 | Every member of a team in a reachable state may write in its space |
| `Teams.ProvisionedIsManaged` | apps/api/src/k7e_api/teams.py:53-87 | A team just provisioned has a new space without an owner of its own and an owner who may manage it |
| `Teams.RunsKeepInv` | apps/api/src/k7e_api/routers/teams.py:167-235 | Over every run of provision, add and remove: grants stay unique, an admin grant at a team space belongs to a current owner or admin, every admin member has one |
| `Teams.StepKeeps` | apps/api/src/k7e_api/teams.py:53-87 | Every successful request keeps that invariant |
| `Teams.RemovalCutsAccess` | apps/api/src/k7e_api/rbac.py:111-132 | After removal a grant at the team space matches the user if and only if the identity provider itself declares the team group |
| `Teams.JoiningGrantsAdminsOnly` | apps/api/src/k7e_api/routers/teams.py:184-195 | A joining member gets an admin grant if and only if the role is admin; a later owner gets none |
| `Search.Query` | apps/api/src/k7e_api/search.py:432-498 | The hits are the head of the sorted candidates |
| `Search.Expand` | apps/api/src/k7e_api/search.py:282-359 | The neighbours found over the best edges of the top hits, each target once, filtered like direct hits |
| `Search.SortSorted` | apps/api/src/k7e_api/search.py:472-487 | Sorting orders by descending score and keeps the elements |
| `Search.SortStable` | apps/api/src/k7e_api/search.py:472-487 | Equal scores keep their order |
| `Search.QueryReturnsTopK` | apps/api/src/k7e_api/search.py:432-498 | Hits are sorted, distinct, visible under allowed set and filters, as many as can be, and no omitted candidate scores above any of them |
| `SearchScores.DirectExact` | apps/api/src/k7e_api/search.py:438-472 | A page is a direct candidate if and only if it passes every filter and the relevance gate, and its score is the weighted sum of keyword, similarity and recency plus its share of the importance weight: its out-degree over the greatest one among such pages |
| `SearchScores.DominantStandsFirst` | apps/api/src/k7e_api/search.py:438-498 | Without importance weight, a visible relevant page no worse in any signal than a direct hit and strictly better in one with a positive weight stands before it in the answer |
| `SearchScores.EdgesBestFirst` | apps/api/src/k7e_api/search.py:292-302 | The edges of a page are followed in the order of descending score |
| `SearchScores.ExpandedFromFirst` | apps/api/src/k7e_api/search.py:282-359 | An expanded hit is no direct candidate; its score and its parent are those of the first edge to it among the best edges of the top hits, in the order of hits and then of edges |
| `Search.CandidatesGood` | apps/api/src/k7e_api/search.py:438-487 | Candidates are distinct visible pages |
| `Search.EveryRelevantPageIsCandidate` | apps/api/src/k7e_api/search.py:438-458 | Every visible page that passes the relevance gate is a candidate |
| `Search.EveryNeighbourIsCandidate` | apps/api/src/k7e_api/search.py:292-358 | Every visible page at the end of a followed edge of a top hit is a candidate |
| `Search.ExpandedComeFromTopHits` | apps/api/src/k7e_api/search.py:292-358 | An expanded candidate comes by a stored edge from one of the top hits and scores edge times parent times decay |
| `Search.EdgesFromStored` | apps/api/src/k7e_api/search.py:294-300 | The edges followed are stored edges of the parent |
| `Search.ChildNotAboveParentIff` | apps/api/src/k7e_api/search.py:350-350 | Under a positive parent an expanded score is at most the parent's if and only if edge times decay is at most 1 |
| `Search.ExpandedRankBelowParent` | apps/api/src/k7e_api/search.py:472-498 | With edge and decay at most 1 and a non-negative parent, a shown expanded hit stands behind its parent, which is shown too |

## Left out

- Concurrent.NoLinkDangles: claimed when nobody is writing and no page left over by a broken-off attempt is missing; `Concurrent.DraftsAreGrounded` says exactly which pages dangle otherwise.
- Concurrent.CreatedByExactlyOne: a log entry names slugs only; the model keeps type and slug. The updated pages an entry lists are left out.
- Resolve.ReplayIsStable: needs aliases that name existing pages, which the relate step validates; related slugs may be arbitrary.
- Pipeline.Converges: every page as the mirror sees it; group restrictions, status and tenant stamps are not part of the view, since an unchanged archived page stays archived and old groups can stay.
- Pipeline.LinksConverge: archiving an item deletes its links and a later mirror can add them again; links of items archived since the last mirror are left out of the claim because they are gone.
- Pipeline.PlannedLinksAreRows: for targets that are linkable, their own slug, and not preceded by a link that folds alike with another slug; `Pipeline.LinkRowIff` has none of these conditions. Slugs made by the slug function need not be their own slug.
- Pipeline.EmbeddedWithinBound: counts successful backfills that each select after the one before committed; a backfill whose selected rows were re-chunked meanwhile counts as successful for the rows that remain.
- Backfill.EmbeddedWithinBound: counts runs that do not overlap each other.
- Mirror.PrepareItem: does not model the group restrictions and tenant stamps set in the same lines, which no result here reads.
- Mirror.MirrorPage: likewise, and the time stamps of items and versions.
- Versioning.ArchiveItem: does not model the table of source-page links, whose rows the source deletes too; nothing else here reads it.
- Okf.ParseSerialize: the YAML library is a parameter with the stated property; quoting and block style are not modelled.
- Teams.RunsKeepInv: one organisation, whose grants and spaces existing before its first team are arbitrary but unique.
- Search.Query: keyword, similarity and recency of a page are given real numbers; floating-point rounding, tokenizing, snippets and explain mode are left out, and ties keep row order.
- A mirror is one step although it does not take the bundle lock, so mirrors that read a bundle while it is being written are seen as reading before or after a page write.
- An activity attempt that timed out is taken to have stopped; Temporal may let it run on beside its retry.
- Bodies under concurrency: the last body written wins, since only metadata is merged under the lock; nothing is claimed about merged prose.
- Isolation between bundles: item slugs are global and the link rebuild removes explicit links into synced pages from any source; mirror results concern one bundle.
- Listing order of a directory (sorted in the source) and the order of the model's catalog titles; no result depends on them.
- Reads of one phase without the lock (four directory listings, pages one by one) are taken as one read each.
- index.md, log.md and git commits of the bundle; file locking and its timeout.
- Fail-closed behaviour when the grant store cannot be read; denial is the safe side of every result here.
- The review router that approves a pending version; authentication tokens, HTTP routes, connectors, image extraction, migrations, metrics.
- The legacy upsert writes no chunk rows, so it is part of the version results and not of the chunk results.
- UUIDs are numbers, timestamps are absent except creation dates as text; creation order stands for `created_at, id`.
- A negative overlap of the chunker; every caller passes the default.
- Workflow.Run: one workflow with nothing else going on; interleaving is part of `Concurrent` and `Pipeline`.
