/** Any number of ingests of one bundle, interleaved step by step: reads and model calls go on without
    the lock, pages are written one at a time under it, and an attempt may fail anywhere and be retried. */
module Concurrent {
  import opened Strings
  import opened Okf
  import opened Bundle
  import opened Resolve
  import opened Relate
  import opened Links
  import opened Ingest

  datatype Job = Idle
               | Hinted(x: Extraction, source: string, hints: Hints)
               | Planned(c: Context, x: Extraction, related: seq<string>)
               | Ready(prepared: seq<Prepared>, today: string)
               | Writing(prepared: seq<Prepared>, today: string, n: nat, created: seq<PageKey>)
               | Logged
               | Reported

  /** `log` holds for each logged attempt the pages it created, `drafts` remembers what each stored body was
      made from, `lost` the pages first written by attempts that failed before their log entry, `missing`
      the slugs such attempts had yet to write when they broke off. */
  datatype State = State(pages: Pages, drafts: map<PageKey, Draft>, jobs: seq<Job>, holder: Option<nat>,
                         log: seq<seq<PageKey>>, lost: set<PageKey>, missing: set<string>)

  function Start(n: nat): State {
    State(map[], map[], seq(n, i => Idle), None, [], {}, {})
  }

  // ---------------------------------------------------------------- the steps

  ghost predicate Relates(s: State, s': State, j: nat, x: Extraction, source: string, hints: Hints)
    requires j < |s.jobs|
  {
    s.jobs[j].Idle? && (forall name | name in hints.aliases :: hints.aliases[name] in AllSlugs(s.pages))
    && s' == s.(jobs := s.jobs[j := Hinted(x, source, hints)])
  }

  ghost predicate Resolves(r: Rules, s: State, s': State, j: nat)
    requires j < |s.jobs|
  {
    s.jobs[j].Hinted? &&
    var h := s.jobs[j];
    s' == s.(jobs := s.jobs[j := Planned(Context(r.slugify, s.pages, h.hints.aliases, h.source), h.x, h.hints.related)])
  }

  ghost predicate Composes(r: Rules, s: State, s': State, j: nat, prepared: seq<Prepared>, today: string)
    requires j < |s.jobs|
  {
    s.jobs[j].Planned? && today != "" &&
    var p := s.jobs[j];
    var ops := Plan(p.c, p.x, p.related);
    && (exists resource, raws ::
          IsComposed(r, p.x, ops, p.c.source, ValidSlugs(ops, s.pages), resource, today, raws, prepared))
    && s' == s.(jobs := s.jobs[j := Ready(prepared, today)])
  }

  ghost predicate Locks(s: State, s': State, j: nat)
    requires j < |s.jobs|
  {
    s.jobs[j].Ready? && s.holder.None?
    && s' == s.(jobs := s.jobs[j := Writing(s.jobs[j].prepared, s.jobs[j].today, 0, [])], holder := Some(j))
  }

  ghost predicate Writes(s: State, s': State, j: nat)
    requires j < |s.jobs|
  {
    s.jobs[j].Writing? && s.jobs[j].n < |s.jobs[j].prepared| && s' == AfterWrite(s, j)
  }

  function AfterWrite(s: State, j: nat): State
    requires j < |s.jobs| && s.jobs[j].Writing? && s.jobs[j].n < |s.jobs[j].prepared|
  {
    var w := s.jobs[j];
    var p := w.prepared[w.n];
    var more := if p.Key() in s.pages then [] else [p.Key()];
    s.(pages := WriteOne(s.pages, p, w.today), drafts := s.drafts[p.Key() := p.draft],
       jobs := s.jobs[j := w.(n := w.n + 1, created := w.created + more)])
  }

  /** After its last page, still under the lock, the attempt appends its log entry. */
  ghost predicate Logs(s: State, s': State, j: nat)
    requires j < |s.jobs|
  {
    s.jobs[j].Writing? && s.jobs[j].n == |s.jobs[j].prepared| && s' == AfterLog(s, j)
  }

  function AfterLog(s: State, j: nat): State
    requires j < |s.jobs| && s.jobs[j].Writing?
  {
    s.(jobs := s.jobs[j := Logged], log := s.log + [s.jobs[j].created])
  }

  ghost predicate Unlocks(s: State, s': State, j: nat)
    requires j < |s.jobs|
  {
    s.jobs[j].Logged? && s' == s.(jobs := s.jobs[j := Reported], holder := None)
  }

  predicate Holds(job: Job) {
    job.Writing? || job.Logged?
  }

  function CreatedOf(job: Job): seq<PageKey> {
    if job.Writing? then job.created else []
  }

  /** What an attempt that breaks off has promised links to and not written. */
  function LeftOver(job: Job): set<string> {
    if job.Writing? && 0 < job.n <= |job.prepared| then SlugsIn(job.prepared[job.n..]) else {}
  }

  function AfterFailure(s: State, j: nat): State
    requires j < |s.jobs|
  {
    var job := s.jobs[j];
    s.(jobs := s.jobs[j := Idle], holder := if Holds(job) then None else s.holder,
       lost := s.lost + KeySet(CreatedOf(job)), missing := s.missing + LeftOver(job))
  }

  /** The attempt fails, or after its log entry its completion is lost. It has the lock no longer, and the job
      may be tried again. */
  ghost predicate Fails(s: State, s': State, j: nat)
    requires j < |s.jobs|
  {
    !s.jobs[j].Reported? && s' == AfterFailure(s, j)
  }

  ghost predicate Step(r: Rules, s: State, s': State, j: nat) {
    j < |s.jobs| && (
      || (exists x, source, hints :: Relates(s, s', j, x, source, hints))
      || Resolves(r, s, s', j)
      || (exists prepared, today :: Composes(r, s, s', j, prepared, today))
      || Locks(s, s', j) || Writes(s, s', j) || Logs(s, s', j) || Unlocks(s, s', j) || Fails(s, s', j))
  }

  // ---------------------------------------------------------------- the invariant

  function KeySet(keys: seq<PageKey>): set<PageKey> {
    set k | k in keys
  }

  /** Inline links that were kept and planned links all lead to these slugs. */
  predicate LinkedWithin(d: Draft, slugs: set<string>) {
    d.valid <= slugs && forall l | l in d.links :: l in slugs
  }

  predicate PageOk(r: Rules, k: PageKey, page: Page, d: Draft) {
    && page.slug == k.slug && page.frontmatter.kind == KindName(k.kind) && page.body == Strip(r.render(d))
    && Or(page.frontmatter.created, None).Some? && Distinct(page.frontmatter.aliases)
  }

  predicate FreshOk(r: Rules, p: Prepared, today: string) {
    && p.page.frontmatter.kind == KindName(p.kind) && p.page.body == r.render(p.draft)
    && p.page.frontmatter.created == Some(today) && Distinct(p.page.frontmatter.aliases)
  }

  predicate BatchOk(r: Rules, prepared: seq<Prepared>, today: string, slugs: set<string>) {
    && today != ""
    && forall k | 0 <= k < |prepared| ::
         FreshOk(r, prepared[k], today) && LinkedWithin(prepared[k].draft, slugs + SlugsIn(prepared))
  }

  predicate JobOk(r: Rules, job: Job, slugs: set<string>) {
    match job
    case Idle => true
    case Hinted(_, _, hints) => forall name | name in hints.aliases :: hints.aliases[name] in slugs
    case Planned(c, _, _) => AllSlugs(c.pages) <= slugs && AliasesKnown(c)
    case Ready(prepared, today) => BatchOk(r, prepared, today, slugs)
    case Writing(prepared, today, n, _) => BatchOk(r, prepared, today, slugs) && n <= |prepared|
    case Logged => true
    case Reported => true
  }

  /** Slugs of the pages the lock holder is in the middle of writing. */
  function Pending(s: State): set<string> {
    if s.holder.Some? && s.holder.value < |s.jobs| && s.jobs[s.holder.value].Writing? && s.jobs[s.holder.value].n > 0
    then SlugsIn(s.jobs[s.holder.value].prepared) else {}
  }

  ghost predicate PagesOk(r: Rules, s: State) {
    s.drafts.Keys == s.pages.Keys && forall k | k in s.pages :: PageOk(r, k, s.pages[k], s.drafts[k])
  }

  predicate LockAt(s: State, i: nat) {
    i < |s.jobs| ==> (Holds(s.jobs[i]) <==> s.holder == Some(i))
  }

  predicate WrittenAt(s: State, i: nat) {
    i < |s.jobs| && s.jobs[i].Writing? && s.jobs[i].n <= |s.jobs[i].prepared| ==>
      forall m | 0 <= m < s.jobs[i].n :: s.jobs[i].prepared[m].page.slug in AllSlugs(s.pages)
  }

  predicate JobAt(r: Rules, s: State, i: nat) {
    i < |s.jobs| ==> JobOk(r, s.jobs[i], AllSlugs(s.pages))
  }

  ghost predicate JobsOk(r: Rules, s: State) {
    && (forall i: nat :: LockAt(s, i)) && (forall i: nat :: WrittenAt(s, i)) && (forall i: nat :: JobAt(r, s, i))
    && (s.holder.Some? ==> s.holder.value < |s.jobs|)
  }

  /** Slugs of pages that are there, are being written, or were left over by a failed attempt. */
  function Reach(s: State): set<string> {
    AllSlugs(s.pages) + Pending(s) + s.missing
  }

  predicate Grounded(s: State) {
    forall k | k in s.drafts :: LinkedWithin(s.drafts[k], Reach(s))
  }

  predicate DistinctKeys(keys: seq<PageKey>) {
    forall i, j | 0 <= i < j < |keys| :: keys[i] != keys[j]
  }

  /** What the lock holder has created and not logged yet. */
  function InHand(s: State): seq<PageKey> {
    if s.holder.Some? && s.holder.value < |s.jobs| then CreatedOf(s.jobs[s.holder.value]) else []
  }

  predicate Names(lists: seq<seq<PageKey>>, i: nat, k: PageKey) {
    i < |lists| && k in lists[i]
  }

  /** Each stored page is in one of the lists, once, or lost. */
  ghost predicate Accounted(stored: set<PageKey>, lost: set<PageKey>, lists: seq<seq<PageKey>>) {
    && (forall k | k in stored :: k in lost || exists i: nat :: Names(lists, i, k))
    && lost <= stored
    && (forall i: nat, k | Names(lists, i, k) :: k in stored && k !in lost)
    && (forall i: nat, j: nat, k | Names(lists, i, k) && Names(lists, j, k) :: i == j)
    && (forall i | 0 <= i < |lists| :: DistinctKeys(lists[i]))
  }

  ghost predicate OwnersOk(s: State) {
    Accounted(s.pages.Keys, s.lost, s.log + [InHand(s)])
  }

  ghost predicate Inv(r: Rules, s: State) {
    PagesOk(r, s) && JobsOk(r, s) && OwnersOk(s) && Grounded(s)
  }

  lemma StartInv(r: Rules, n: nat)
    ensures Inv(r, Start(n))
  {
  }

  // ---------------------------------------------------------------- steps that write no page

  lemma LinkedMore(d: Draft, slugs: set<string>, more: set<string>)
    requires LinkedWithin(d, slugs) && slugs <= more
    ensures LinkedWithin(d, more)
  {
  }

  lemma BatchMore(r: Rules, prepared: seq<Prepared>, today: string, slugs: set<string>, more: set<string>)
    requires BatchOk(r, prepared, today, slugs) && slugs <= more
    ensures BatchOk(r, prepared, today, more)
  {
    forall k | 0 <= k < |prepared|
      ensures LinkedWithin(prepared[k].draft, more + SlugsIn(prepared))
    {
      LinkedMore(prepared[k].draft, slugs + SlugsIn(prepared), more + SlugsIn(prepared));
    }
  }

  lemma JobMore(r: Rules, job: Job, slugs: set<string>, more: set<string>)
    requires JobOk(r, job, slugs) && slugs <= more
    ensures JobOk(r, job, more)
  {
    if job.Ready? || job.Writing? {
      BatchMore(r, job.prepared, job.today, slugs, more);
    }
  }

  /** A job that moves on without the lock and without a page. */
  lemma QuietMove(r: Rules, s: State, s': State, j: nat, job: Job)
    requires Inv(r, s) && j < |s.jobs| && !Holds(s.jobs[j]) && !Holds(job)
    requires JobOk(r, job, AllSlugs(s.pages))
    requires s' == s.(jobs := s.jobs[j := job])
    ensures Inv(r, s')
  {
    forall i: nat
      ensures LockAt(s', i) && WrittenAt(s', i) && JobAt(r, s', i)
    {
      assert LockAt(s, i) && WrittenAt(s, i) && JobAt(r, s, i);
    }
    assert LockAt(s, j);
    assert Pending(s') == Pending(s) && InHand(s') == InHand(s);
  }

  lemma ComposedIsBatch(r: Rules, c: Context, x: Extraction, related: seq<string>, resource: Option<string>,
                        today: string, raws: seq<string>, prepared: seq<Prepared>, pages: Pages)
    requires today != "" && AllSlugs(c.pages) <= AllSlugs(pages)
    requires var ops := Plan(c, x, related);
      IsComposed(r, x, ops, c.source, ValidSlugs(ops, pages), resource, today, raws, prepared)
    ensures BatchOk(r, prepared, today, AllSlugs(pages))
  {
    var ops := Plan(c, x, related);
    assert SlugsIn(prepared) == Resolve.SlugsOf(ops) by {
      assert forall k | 0 <= k < |ops| :: prepared[k].page.slug == ops[k].slug;
    }
    forall k | 0 <= k < |prepared|
      ensures FreshOk(r, prepared[k], today) && LinkedWithin(prepared[k].draft, AllSlugs(pages) + SlugsIn(prepared))
    {
      forall l | l in ops[k].links
        ensures l in AllSlugs(pages) + SlugsIn(prepared)
      {
        PlannedLinksWithin(c, x, related, k, l);
      }
      OpAliases(c, x, related, k);
    }
  }

  lemma OpAliases(c: Context, x: Extraction, related: seq<string>, k: nat)
    requires k < |Plan(c, x, related)|
    ensures Distinct(Plan(c, x, related)[k].aliases)
  {
    if k > 0 {
      ChildOpsFromMentions(c, Mentions(x));
      assert FromMention(c, Mentions(x), ChildOps(c, Mentions(x))[k - 1]);
    }
  }

  lemma ReadKeeps(r: Rules, s: State, s': State, j: nat)
    requires Inv(r, s) && j < |s.jobs|
    requires (exists x, source, hints :: Relates(s, s', j, x, source, hints)) || Resolves(r, s, s', j)
    ensures Inv(r, s')
  {
    assert JobAt(r, s, j);
    QuietMove(r, s, s', j, s'.jobs[j]);
  }

  lemma ComposeKeeps(r: Rules, s: State, s': State, j: nat, prepared: seq<Prepared>, today: string)
    requires Inv(r, s) && j < |s.jobs| && Composes(r, s, s', j, prepared, today)
    ensures Inv(r, s')
  {
    var p := s.jobs[j];
    var ops := Plan(p.c, p.x, p.related);
    var resource, raws :|
      IsComposed(r, p.x, ops, p.c.source, ValidSlugs(ops, s.pages), resource, today, raws, prepared);
    assert JobAt(r, s, j);
    ComposedIsBatch(r, p.c, p.x, p.related, resource, today, raws, prepared, s.pages);
    QuietMove(r, s, s', j, Ready(prepared, today));
  }

  // ---------------------------------------------------------------- taking and releasing the lock

  lemma LockKeeps(r: Rules, s: State, s': State, j: nat)
    requires Inv(r, s) && j < |s.jobs| && Locks(s, s', j)
    ensures Inv(r, s')
  {
    forall i: nat
      ensures LockAt(s', i) && WrittenAt(s', i) && JobAt(r, s', i)
    {
      assert LockAt(s, i) && WrittenAt(s, i) && JobAt(r, s, i);
    }
    assert JobAt(r, s, j);
    assert Pending(s') == Pending(s) == {} && InHand(s') == InHand(s) == [];
  }

  /** Once all or none of its pages are written, a batch leaves nothing pending. */
  lemma NothingPending(r: Rules, s: State, j: nat)
    requires JobsOk(r, s) && j < |s.jobs| && s.jobs[j].Writing?
    requires s.jobs[j].n == |s.jobs[j].prepared| || s.jobs[j].n == 0
    ensures Pending(s) <= AllSlugs(s.pages)
  {
    assert LockAt(s, j) && WrittenAt(s, j);
  }

  /** A list more that names nothing changes no account. */
  lemma AccountedMore(stored: set<PageKey>, lost: set<PageKey>, lists: seq<seq<PageKey>>)
    requires Accounted(stored, lost, lists)
    ensures Accounted(stored, lost, lists + [[]])
  {
    assert forall i: nat, k :: Names(lists + [[]], i, k) <==> Names(lists, i, k);
  }

  lemma LogKeeps(r: Rules, s: State, s': State, j: nat)
    requires Inv(r, s) && j < |s.jobs| && Logs(s, s', j)
    ensures Inv(r, s')
  {
    assert LockAt(s, j);
    forall i: nat
      ensures LockAt(s', i) && WrittenAt(s', i) && JobAt(r, s', i)
    {
      assert LockAt(s, i) && WrittenAt(s, i) && JobAt(r, s, i);
    }
    NothingPending(r, s, j);
    GroundedMore(s, s');
    AccountedMore(s.pages.Keys, s.lost, s.log + [InHand(s)]);
  }

  lemma UnlockKeeps(r: Rules, s: State, s': State, j: nat)
    requires Inv(r, s) && j < |s.jobs| && Unlocks(s, s', j)
    ensures Inv(r, s')
  {
    assert LockAt(s, j);
    forall i: nat
      ensures LockAt(s', i) && WrittenAt(s', i) && JobAt(r, s', i)
    {
      assert LockAt(s, i) && WrittenAt(s, i) && JobAt(r, s, i);
    }
    assert Pending(s') == Pending(s) == {} && InHand(s') == InHand(s) == [];
  }

  lemma GroundedMore(s: State, s': State)
    requires Grounded(s) && s'.drafts == s.drafts && Reach(s) <= Reach(s')
    ensures Grounded(s')
  {
    forall k | k in s.drafts
      ensures LinkedWithin(s'.drafts[k], Reach(s'))
    {
      LinkedMore(s.drafts[k], Reach(s), Reach(s'));
    }
  }

  lemma FailJobs(r: Rules, s: State, s': State, j: nat)
    requires JobsOk(r, s) && j < |s.jobs| && Fails(s, s', j)
    ensures JobsOk(r, s')
  {
    assert LockAt(s, j);
    forall i: nat
      ensures LockAt(s', i) && WrittenAt(s', i) && JobAt(r, s', i)
    {
      assert LockAt(s, i) && WrittenAt(s, i) && JobAt(r, s, i);
    }
  }

  /** What was pending when an attempt broke off is written or left over. */
  lemma PendingAfterFailure(r: Rules, s: State, j: nat)
    requires JobsOk(r, s) && j < |s.jobs| && s.jobs[j].Writing?
    ensures Pending(s) <= AllSlugs(s.pages) + LeftOver(s.jobs[j])
  {
    assert LockAt(s, j) && WrittenAt(s, j) && JobAt(r, s, j);
    var prepared, n := s.jobs[j].prepared, s.jobs[j].n;
    forall k | 0 <= k < |prepared| && 0 < n
      ensures prepared[k].page.slug in AllSlugs(s.pages) + SlugsIn(prepared[n..])
    {
      assert n <= k ==> prepared[n..][k - n] == prepared[k];
    }
  }

  lemma FailReach(r: Rules, s: State, s': State, j: nat)
    requires JobsOk(r, s) && j < |s.jobs| && Fails(s, s', j)
    ensures Reach(s) <= Reach(s')
  {
    assert LockAt(s, j);
    if s.jobs[j].Writing? {
      PendingAfterFailure(r, s, j);
    } else {
      assert Pending(s') == Pending(s);
    }
  }

  lemma FailKeeps(r: Rules, s: State, s': State, j: nat)
    requires Inv(r, s) && j < |s.jobs| && Fails(s, s', j)
    ensures Inv(r, s')
  {
    FailJobs(r, s, s', j);
    FailReach(r, s, s', j);
    GroundedMore(s, s');
    FailOwners(r, s, s', j);
  }

  /** What the last list names is lost with it. */
  lemma AccountedLoss(stored: set<PageKey>, lost: set<PageKey>, log: seq<seq<PageKey>>, last: seq<PageKey>)
    requires Accounted(stored, lost, log + [last])
    ensures Accounted(stored, lost + KeySet(last), log + [[]])
  {
    var lists, left := log + [last], log + [[]];
    forall i: nat, k
      ensures Names(left, i, k) <==> Names(lists, i, k) && i != |log|
    {
    }
    assert forall k :: k in KeySet(last) <==> Names(lists, |log|, k);
    forall i | 0 <= i < |left|
      ensures DistinctKeys(left[i])
    {
      assert i < |log| ==> left[i] == lists[i];
    }
    forall k | k in stored
      ensures k in lost + KeySet(last) || exists i: nat :: Names(left, i, k)
    {
      if k !in lost {
        var i: nat :| Names(lists, i, k);
        assert i != |log| ==> Names(left, i, k);
      }
    }
  }

  lemma FailOwners(r: Rules, s: State, s': State, j: nat)
    requires JobsOk(r, s) && OwnersOk(s) && j < |s.jobs| && Fails(s, s', j)
    ensures OwnersOk(s')
  {
    assert LockAt(s, j);
    if s.jobs[j].Writing? {
      AccountedLoss(s.pages.Keys, s.lost, s.log, InHand(s));
    } else {
      assert InHand(s') == InHand(s) && s.lost + KeySet([]) == s.lost;
    }
  }

  // ---------------------------------------------------------------- writing a page

  /** Every other job is unaffected by the writer's new page. */
  lemma WriteJobAt(r: Rules, s: State, s': State, j: nat, i: nat)
    requires JobsOk(r, s) && j < |s.jobs| && Writes(s, s', j) && AllSlugs(s.pages) <= AllSlugs(s'.pages)
    ensures JobAt(r, s', i)
  {
    if i < |s.jobs| {
      assert JobAt(r, s, i);
      JobMore(r, s.jobs[i], AllSlugs(s.pages), AllSlugs(s'.pages));
    }
  }

  lemma WriteWrittenAt(r: Rules, s: State, s': State, j: nat, i: nat)
    requires JobsOk(r, s) && j < |s.jobs| && Writes(s, s', j)
    requires AllSlugs(s'.pages) == AllSlugs(s.pages) + {s.jobs[j].prepared[s.jobs[j].n].page.slug}
    ensures LockAt(s', i) && WrittenAt(s', i)
  {
    assert LockAt(s, i) && WrittenAt(s, i) && LockAt(s, j);
  }

  lemma WriteJobs(r: Rules, s: State, s': State, j: nat)
    requires JobsOk(r, s) && j < |s.jobs| && Writes(s, s', j)
    ensures JobsOk(r, s')
  {
    WriteOneGrows(s.pages, s.jobs[j].prepared[s.jobs[j].n], s.jobs[j].today);
    forall i: nat
      ensures LockAt(s', i) && JobAt(r, s', i) && WrittenAt(s', i)
    {
      WriteJobAt(r, s, s', j, i);
      WriteWrittenAt(r, s, s', j, i);
    }
  }

  lemma WrittenPageOk(r: Rules, b: Pages, p: Prepared, today: string, d: Draft)
    requires FreshOk(r, p, today) && today != "" && (p.Key() in b ==> PageOk(r, p.Key(), b[p.Key()], d))
    ensures PageOk(r, p.Key(), WriteOne(b, p, today)[p.Key()], p.draft)
  {
  }

  lemma WritePages(r: Rules, s: State, s': State, j: nat)
    requires PagesOk(r, s) && JobsOk(r, s) && j < |s.jobs| && Writes(s, s', j)
    ensures PagesOk(r, s')
  {
    var p, today := s.jobs[j].prepared[s.jobs[j].n], s.jobs[j].today;
    assert JobAt(r, s, j);
    assert p.Key() in s.pages ==> PageOk(r, p.Key(), s.pages[p.Key()], s.drafts[p.Key()]);
    WrittenPageOk(r, s.pages, p, today, if p.Key() in s.pages then s.drafts[p.Key()] else p.draft);
    forall k | k in s'.pages && k != p.Key()
      ensures PageOk(r, k, s'.pages[k], s'.drafts[k])
    {
      assert PageOk(r, k, s.pages[k], s.drafts[k]);
    }
  }

  lemma WriteGrounded(r: Rules, s: State, s': State, j: nat)
    requires JobsOk(r, s) && j < |s.jobs| && Writes(s, s', j) && Grounded(s)
    ensures Grounded(s')
  {
    var w := s.jobs[j];
    var p := w.prepared[w.n];
    assert JobAt(r, s, j) && LockAt(s, j);
    WriteOneGrows(s.pages, p, w.today);
    assert Pending(s') == SlugsIn(w.prepared);
    forall k | k in s'.drafts
      ensures LinkedWithin(s'.drafts[k], Reach(s'))
    {
      if k == p.Key() {
        LinkedMore(p.draft, AllSlugs(s.pages) + SlugsIn(w.prepared), Reach(s'));
      } else {
        LinkedMore(s.drafts[k], Reach(s), Reach(s'));
      }
    }
  }

  /** A new page goes to the end of the last list. */
  lemma AccountedNew(stored: set<PageKey>, lost: set<PageKey>, log: seq<seq<PageKey>>, last: seq<PageKey>, key: PageKey)
    requires Accounted(stored, lost, log + [last]) && key !in stored
    ensures Accounted(stored + {key}, lost, log + [last + [key]])
  {
    var lists, more := log + [last], log + [last + [key]];
    forall i: nat, k
      ensures Names(more, i, k) <==> Names(lists, i, k) || (i == |log| && k == key)
    {
    }
    assert !Names(lists, |log|, key) && DistinctKeys(lists[|log|]);
    forall i | 0 <= i < |more|
      ensures DistinctKeys(more[i])
    {
      assert i < |log| ==> more[i] == lists[i];
    }
  }

  lemma WriteOwners(r: Rules, s: State, s': State, j: nat)
    requires JobsOk(r, s) && OwnersOk(s) && j < |s.jobs| && Writes(s, s', j)
    ensures OwnersOk(s')
  {
    var key := s.jobs[j].prepared[s.jobs[j].n].Key();
    assert LockAt(s, j);
    assert s'.pages.Keys == s.pages.Keys + {key};
    if key in s.pages {
      assert InHand(s') == InHand(s);
    } else {
      AccountedNew(s.pages.Keys, s.lost, s.log, InHand(s), key);
    }
  }

  lemma WriteKeeps(r: Rules, s: State, s': State, j: nat)
    requires Inv(r, s) && j < |s.jobs| && Writes(s, s', j)
    ensures Inv(r, s')
  {
    WritePages(r, s, s', j);
    WriteJobs(r, s, s', j);
    WriteOwners(r, s, s', j);
    WriteGrounded(r, s, s', j);
  }

  lemma StepKeeps(r: Rules, s: State, s': State, j: nat)
    requires Inv(r, s) && Step(r, s, s', j)
    ensures Inv(r, s') && |s'.jobs| == |s.jobs|
  {
    if Locks(s, s', j) {
      LockKeeps(r, s, s', j);
    } else if Writes(s, s', j) {
      WriteKeeps(r, s, s', j);
    } else if Logs(s, s', j) {
      LogKeeps(r, s, s', j);
    } else if Unlocks(s, s', j) {
      UnlockKeeps(r, s, s', j);
    } else if Fails(s, s', j) {
      FailKeeps(r, s, s', j);
    } else if prepared, today :| Composes(r, s, s', j, prepared, today) {
      ComposeKeeps(r, s, s', j, prepared, today);
    } else {
      ReadKeeps(r, s, s', j);
    }
  }

  lemma GrowsSelf(b: Pages)
    ensures Grows(b, b)
  {
  }

  lemma StepGrows(r: Rules, s: State, s': State, j: nat)
    requires Step(r, s, s', j)
    ensures Grows(s.pages, s'.pages)
  {
    if Writes(s, s', j) {
      WriteOneGrows(s.pages, s.jobs[j].prepared[s.jobs[j].n], s.jobs[j].today);
    } else {
      GrowsSelf(s.pages);
    }
  }

  // ---------------------------------------------------------------- whole runs

  ghost predicate Run(r: Rules, states: seq<State>, movers: seq<nat>) {
    && |states| == |movers| + 1
    && forall i: nat {:trigger movers[i]} | i < |movers| :: Step(r, states[i], states[i + 1], movers[i])
  }

  lemma {:induction false} RunKeeps(r: Rules, states: seq<State>, movers: seq<nat>, n: nat, m: nat)
    requires Run(r, states, movers) && states[0] == Start(n) && m < |states|
    ensures Inv(r, states[m]) && |states[m].jobs| == n
  {
    if m == 0 {
      StartInv(r, n);
    } else {
      RunKeeps(r, states, movers, n, m - 1);
      StepKeeps(r, states[m - 1], states[m], movers[m - 1]);
    }
  }

  /** From any moment of a run to any later one no page goes away, no creation date and no title
      changes, and every alias list is extended at its end only. */
  lemma {:induction false} PagesEndure(r: Rules, states: seq<State>, movers: seq<nat>, n: nat, i: nat, m: nat,
                                       k: PageKey)
    requires Run(r, states, movers) && states[0] == Start(n) && i <= m < |states| && k in states[i].pages
    ensures k in states[m].pages
    ensures var before, now := states[i].pages[k].frontmatter, states[m].pages[k].frontmatter;
      && now.created == before.created && before.created.Some?
      && (before.title != "" ==> now.title == before.title)
      && before.aliases <= now.aliases
  {
    RunKeeps(r, states, movers, n, i);
    assert PageOk(r, k, states[i].pages[k], states[i].drafts[k]);
    RunGrows(r, states, movers, i, m);
    assert Endures(states[i].pages[k], states[m].pages[k]);
  }

  lemma RunGrows(r: Rules, states: seq<State>, movers: seq<nat>, i: nat, m: nat)
    requires Run(r, states, movers) && i <= m < |states|
    ensures Grows(states[i].pages, states[m].pages)
  {
    var history := seq(|states|, x requires 0 <= x < |states| => states[x].pages);
    forall x: nat | x < |movers|
      ensures Grows(history[x], history[x + 1])
    {
      StepGrows(r, states[x], states[x + 1], movers[x]);
    }
    GrowsAlong(history, i, m);
  }

  lemma {:induction false} GrowsAlong(history: seq<Pages>, i: nat, m: nat)
    requires i <= m < |history| && forall x: nat | x < |history| - 1 :: Grows(history[x], history[x + 1])
    ensures Grows(history[i], history[m])
    decreases m
  {
    if i == m {
      GrowsSelf(history[i]);
    } else {
      GrowsAlong(history, i, m - 1);
      GrowsTransitive(history[i], history[m - 1], history[m]);
    }
  }

  /** At any moment of any run a stored page is in exactly one log entry, once, unless the lock holder is to
      log it still or the attempt that first wrote it failed before its log entry. */
  lemma CreatedByExactlyOne(r: Rules, states: seq<State>, movers: seq<nat>, n: nat, m: nat, k: PageKey)
    requires Run(r, states, movers) && states[0] == Start(n) && m < |states| && k in states[m].pages
    ensures var s := states[m];
      && ((exists i: nat :: Names(s.log, i, k)) <==> k !in s.lost && k !in InHand(s))
      && (forall i: nat, j: nat | Names(s.log, i, k) && Names(s.log, j, k) :: i == j)
      && (forall i: nat | Names(s.log, i, k) :: DistinctKeys(s.log[i]))
      && (s.holder.None? ==> InHand(s) == [])
  {
    RunKeeps(r, states, movers, n, m);
    LogAccount(states[m].pages.Keys, states[m].lost, states[m].log, InHand(states[m]), k);
  }

  /** The last list set aside, the others name what is neither lost nor in it. */
  lemma LogAccount(stored: set<PageKey>, lost: set<PageKey>, log: seq<seq<PageKey>>, last: seq<PageKey>, k: PageKey)
    requires Accounted(stored, lost, log + [last]) && k in stored
    ensures (exists i: nat :: Names(log, i, k)) <==> k !in lost && k !in last
    ensures forall i: nat, j: nat | Names(log, i, k) && Names(log, j, k) :: i == j
    ensures forall i: nat | Names(log, i, k) :: DistinctKeys(log[i])
  {
    forall i: nat
      ensures Names(log, i, k) ==> k !in lost && k !in last && DistinctKeys(log[i])
    {
      NamedIsNotLost(stored, lost, log, last, i, k);
    }
    forall i: nat, j: nat | Names(log, i, k) && Names(log, j, k)
      ensures i == j
    {
      assert Names(log + [last], i, k) && Names(log + [last], j, k);
    }
    if k !in lost && k !in last {
      var i: nat :| Names(log + [last], i, k);
      assert Names(log, i, k);
    }
  }

  lemma NamedIsNotLost(stored: set<PageKey>, lost: set<PageKey>, log: seq<seq<PageKey>>, last: seq<PageKey>,
                       i: nat, k: PageKey)
    requires Accounted(stored, lost, log + [last])
    ensures Names(log, i, k) ==> k !in lost && k !in last && DistinctKeys(log[i])
  {
    var lists := log + [last];
    assert k in last ==> Names(lists, |log|, k);
    assert Names(log, i, k) ==> Names(lists, i, k) && lists[i] == log[i];
  }

  /** No entry of the log is ever taken back, and a page that is lost stays so: no later entry names it. */
  lemma LogIsFinal(r: Rules, states: seq<State>, movers: seq<nat>, n: nat, i: nat, m: nat)
    requires Run(r, states, movers) && states[0] == Start(n) && i <= m < |states|
    ensures states[i].log <= states[m].log
    ensures forall k, e: nat | k in states[i].lost :: !Names(states[m].log, e, k)
  {
    RunKeeps(r, states, movers, n, m);
    LogGrows(r, states, movers, i, m);
    LostAreUnnamed(states[m].pages.Keys, states[m].lost, states[m].log, InHand(states[m]));
  }

  lemma LostAreUnnamed(stored: set<PageKey>, lost: set<PageKey>, log: seq<seq<PageKey>>, last: seq<PageKey>)
    requires Accounted(stored, lost, log + [last])
    ensures forall k, e: nat | k in lost :: !Names(log, e, k)
  {
    forall k, e: nat | k in lost
      ensures !Names(log, e, k)
    {
      NamedIsNotLost(stored, lost, log, last, e, k);
    }
  }

  lemma {:induction false} LogGrows(r: Rules, states: seq<State>, movers: seq<nat>, i: nat, m: nat)
    requires Run(r, states, movers) && i <= m < |states|
    ensures states[i].log <= states[m].log && states[i].lost <= states[m].lost
    decreases m
  {
    if i < m {
      LogGrows(r, states, movers, i, m - 1);
      StepLogs(r, states[m - 1], states[m], movers[m - 1]);
    }
  }

  lemma StepLogs(r: Rules, s: State, s': State, j: nat)
    requires Step(r, s, s', j)
    ensures s.log <= s'.log && s.lost <= s'.lost
  {
  }

  /** Slugs a broken-off attempt promised and nobody has written since. */
  function Unwritten(s: State): set<string> {
    s.missing - AllSlugs(s.pages)
  }

  predicate Avoids(links: seq<string>, slugs: set<string>) {
    forall l | l in links :: l !in slugs
  }

  /** Whenever nobody is writing, a page's links dangle exactly if they lead to a page that an attempt
      left over when it broke off and that is still not there. */
  lemma DraftsAreGrounded(r: Rules, states: seq<State>, movers: seq<nat>, n: nat, m: nat, k: PageKey)
    requires Run(r, states, movers) && states[0] == Start(n) && m < |states|
    requires states[m].holder.None? && k in states[m].pages
    ensures k in states[m].drafts && states[m].pages[k].body == Strip(r.render(states[m].drafts[k]))
    ensures var s := states[m];
      && ((forall l | l in s.drafts[k].links :: l in AllSlugs(s.pages)) <==> Avoids(s.drafts[k].links, Unwritten(s)))
      && (s.drafts[k].valid <= AllSlugs(s.pages) <==> s.drafts[k].valid !! Unwritten(s))
  {
    RunKeeps(r, states, movers, n, m);
    assert PageOk(r, k, states[m].pages[k], states[m].drafts[k]);
    assert LinkedWithin(states[m].drafts[k], Reach(states[m]));
  }

  /** Planned links that read back as themselves. */
  predicate ReadBack(slugify: string -> string, links: seq<string>) {
    forall l | l in links :: LinkableSlug(l) && slugify(l) == l
  }

  /** Whenever nobody is writing and nothing left over is unwritten, every page links only to stored pages:
      its planned links name them and can be read in its body, and every link anywhere in the stored body
      slugifies to one of them exactly if no two stray brackets of its prose make a link, provided that its
      planned links read back as themselves. */
  lemma NoLinkDangles(slugify: string -> string, states: seq<State>, movers: seq<nat>, n: nat, m: nat, k: PageKey)
    requires Run(RulesFor(slugify), states, movers) && states[0] == Start(n) && m < |states|
    requires states[m].holder.None? && Unwritten(states[m]) == {} && k in states[m].pages
    ensures k in states[m].drafts
    ensures var s, d := states[m], states[m].drafts[k];
      && s.pages[k].body == Strip(WithRelated(Sanitize(slugify, d.valid, d.raw), d.links))
      && (forall l | l in d.links :: l in AllSlugs(s.pages) && (LinkableSlug(l) ==> HasLink(s.pages[k].body, l)))
      && d.valid <= AllSlugs(s.pages)
      && (ReadBack(slugify, d.links) ==>
           (NoLinkMade(slugify, d.valid, AllSlugs(s.pages), d.raw, false) <==>
            AllValid(slugify, AllSlugs(s.pages), s.pages[k].body)))
  {
    DraftsAreGrounded(RulesFor(slugify), states, movers, n, m, k);
    DraftLinks(slugify, AllSlugs(states[m].pages), states[m].drafts[k]);
  }

  lemma DraftLinks(slugify: string -> string, slugs: set<string>, d: Draft)
    requires LinkedWithin(d, slugs)
    ensures var body := Strip(WithRelated(Sanitize(slugify, d.valid, d.raw), d.links));
      && (forall l | l in d.links && LinkableSlug(l) :: HasLink(body, l))
      && (ReadBack(slugify, d.links) ==>
           (AllValid(slugify, slugs, body) <==> NoLinkMade(slugify, d.valid, slugs, d.raw, false)))
  {
    var prose := Sanitize(slugify, d.valid, d.raw);
    forall l | l in d.links && LinkableSlug(l)
      ensures HasLink(Strip(WithRelated(prose, d.links)), l)
    {
      PlannedLinksAreRead(prose, d.links, l);
    }
    SanitizedIsClean(slugify, d.valid, slugs, d.raw);
    if ReadBack(slugify, d.links) {
      StoredIsCleanIff(slugify, slugs, prose, d.links);
    }
  }

  // ---------------------------------------------------------------- a run in which an attempt breaks off

  /** The context in which the first ingest of an empty bundle plans. */
  function FirstContext(r: Rules, source: string): Context {
    Context(r.slugify, map[], map[], source)
  }

  /** One job alone: hints, plan, batch, lock, one page. */
  function AlonePlanned(r: Rules, x: Extraction, source: string): State {
    Start(1).(jobs := [Planned(FirstContext(r, source), x, [])])
  }

  function AloneWriting(prepared: seq<Prepared>, today: string): State {
    Start(1).(jobs := [Writing(prepared, today, 0, [])], holder := Some(0))
  }

  function UntilReady(r: Rules, x: Extraction, source: string, prepared: seq<Prepared>, today: string): seq<State> {
    [Start(1), Start(1).(jobs := [Hinted(x, source, NoHints)]), AlonePlanned(r, x, source),
     Start(1).(jobs := [Ready(prepared, today)])]
  }

  function BrokenRun(r: Rules, x: Extraction, source: string, prepared: seq<Prepared>, today: string): seq<State>
    requires prepared != []
  {
    var locked := AloneWriting(prepared, today);
    UntilReady(r, x, source, prepared, today)
    + [locked, AfterWrite(locked, 0), AfterFailure(AfterWrite(locked, 0), 0)]
  }

  lemma AlonePlans(r: Rules, x: Extraction, source: string)
    ensures var s := Start(1).(jobs := [Hinted(x, source, NoHints)]);
      Relates(Start(1), s, 0, x, source, NoHints) && Resolves(r, s, AlonePlanned(r, x, source), 0)
  {
    var s := Start(1).(jobs := [Hinted(x, source, NoHints)]);
    assert Start(1).jobs[0 := Hinted(x, source, NoHints)] == s.jobs;
    assert s.jobs[0 := AlonePlanned(r, x, source).jobs[0]] == AlonePlanned(r, x, source).jobs;
  }

  lemma AloneComposes(r: Rules, x: Extraction, source: string, resource: Option<string>,
                      today: string, raws: seq<string>, prepared: seq<Prepared>)
    requires today != "" && prepared != []
    requires var ops := Plan(FirstContext(r, source), x, []);
      IsComposed(r, x, ops, source, ValidSlugs(ops, map[]), resource, today, raws, prepared)
    ensures Composes(r, AlonePlanned(r, x, source), Start(1).(jobs := [Ready(prepared, today)]), 0, prepared, today)
  {
    var s, ready := AlonePlanned(r, x, source), Start(1).(jobs := [Ready(prepared, today)]);
    assert s.jobs[0 := Ready(prepared, today)] == ready.jobs;
  }

  lemma RunExtends(r: Rules, states: seq<State>, movers: seq<nat>, s': State, j: nat)
    requires Run(r, states, movers) && Step(r, states[|movers|], s', j)
    ensures Run(r, states + [s'], movers + [j])
  {
    var longer, more := states + [s'], movers + [j];
    forall i: nat | i < |more|
      ensures Step(r, longer[i], longer[i + 1], more[i])
    {
      if i < |movers| {
        assert longer[i] == states[i] && longer[i + 1] == states[i + 1] && more[i] == movers[i];
      } else {
        assert longer[i] == states[|movers|] && longer[i + 1] == s' && more[i] == j;
      }
    }
  }

  lemma RunExtendsByThree(r: Rules, states: seq<State>, movers: seq<nat>, b: State, c: State, d: State)
    requires Run(r, states, movers) && Step(r, states[|movers|], b, 0) && Step(r, b, c, 0) && Step(r, c, d, 0)
    ensures Run(r, states + [b, c, d], movers + [0, 0, 0])
  {
    RunExtends(r, states, movers, b, 0);
    RunExtends(r, states + [b], movers + [0], c, 0);
    RunExtends(r, states + [b] + [c], movers + [0] + [0], d, 0);
    assert states + [b] + [c] + [d] == states + [b, c, d];
    assert movers + [0] + [0] + [0] == movers + [0, 0, 0];
  }

  lemma AloneBreaksOff(r: Rules, states: seq<State>, movers: seq<nat>, prepared: seq<Prepared>, today: string)
    requires prepared != [] && Run(r, states, movers) && states[|movers|] == Start(1).(jobs := [Ready(prepared, today)])
    ensures var locked := AloneWriting(prepared, today);
      Run(r, states + [locked, AfterWrite(locked, 0), AfterFailure(AfterWrite(locked, 0), 0)], movers + [0, 0, 0])
  {
    var ready, locked := Start(1).(jobs := [Ready(prepared, today)]), AloneWriting(prepared, today);
    assert ready.jobs[0 := Writing(prepared, today, 0, [])] == locked.jobs;
    assert Locks(ready, locked, 0);
    assert Writes(locked, AfterWrite(locked, 0), 0);
    assert Fails(AfterWrite(locked, 0), AfterFailure(AfterWrite(locked, 0), 0), 0);
    RunExtendsByThree(r, states, movers, locked, AfterWrite(locked, 0), AfterFailure(AfterWrite(locked, 0), 0));
  }

  lemma AloneGetsReady(r: Rules, x: Extraction, source: string, resource: Option<string>, today: string,
                       raws: seq<string>, prepared: seq<Prepared>)
    requires today != "" && prepared != []
    requires var ops := Plan(FirstContext(r, source), x, []);
      IsComposed(r, x, ops, source, ValidSlugs(ops, map[]), resource, today, raws, prepared)
    ensures Run(r, UntilReady(r, x, source, prepared, today), [0, 0, 0])
  {
    AlonePlans(r, x, source);
    AloneComposes(r, x, source, resource, today, raws, prepared);
    var hinted, ready := Start(1).(jobs := [Hinted(x, source, NoHints)]), Start(1).(jobs := [Ready(prepared, today)]);
    RunExtendsByThree(r, [Start(1)], [], hinted, AlonePlanned(r, x, source), ready);
    assert [] + [0, 0, 0] == [0, 0, 0];
  }

  lemma BrokenRunIsRun(r: Rules, x: Extraction, source: string, prepared: seq<Prepared>, today: string)
    requires prepared != [] && Run(r, UntilReady(r, x, source, prepared, today), [0, 0, 0])
    ensures Run(r, BrokenRun(r, x, source, prepared, today), [0, 0, 0, 0, 0, 0])
  {
    AloneBreaksOff(r, UntilReady(r, x, source, prepared, today), [0, 0, 0], prepared, today);
    assert [0, 0, 0] + [0, 0, 0] == [0, 0, 0, 0, 0, 0];
  }

  lemma BrokenRunEnds(r: Rules, x: Extraction, source: string, resource: Option<string>, today: string,
                      raws: seq<string>, prepared: seq<Prepared>)
    requires today != "" && prepared != []
    requires var ops := Plan(FirstContext(r, source), x, []);
      IsComposed(r, x, ops, source, ValidSlugs(ops, map[]), resource, today, raws, prepared)
    ensures var s, key := AfterFailure(AfterWrite(AloneWriting(prepared, today), 0), 0), PageKey(Source, source);
      && key in s.pages && key in s.lost && s.log == [] && s.holder.None? && key in s.drafts
      && (|prepared| > 1 ==> exists l | l in s.drafts[key].links :: l !in AllSlugs(s.pages))
  {
    var c, ops := FirstContext(r, source), Plan(FirstContext(r, source), x, []);
    var s, key := AfterFailure(AfterWrite(AloneWriting(prepared, today), 0), 0), PageKey(Source, source);
    assert prepared[0] == PreparedFor(r, x, ops[0], source, raws[0], ValidSlugs(ops, map[]), resource, today);
    assert prepared[0].Key() == key;
    assert s.pages == WriteOne(map[], prepared[0], today) == WriteAll(map[], prepared[..1], today);
    if |prepared| > 1 {
      BrokenOffWriteDangles(r, c, x, [], prepared, raws, ValidSlugs(ops, map[]), resource, today);
    }
  }

  /** A first ingest that breaks off after its source page: the page is stored and the log is empty,
      and if the plan has another page the stored page links to one that is not there. */
  lemma BrokenRunLosesAPage(r: Rules, x: Extraction, source: string, resource: Option<string>, today: string,
                            raws: seq<string>, prepared: seq<Prepared>)
    requires today != "" && prepared != []
    requires var ops := Plan(FirstContext(r, source), x, []);
      IsComposed(r, x, ops, source, ValidSlugs(ops, map[]), resource, today, raws, prepared)
    ensures var states, key := BrokenRun(r, x, source, prepared, today), PageKey(Source, source);
      && Run(r, states, [0, 0, 0, 0, 0, 0]) && states[0] == Start(1)
      && key in states[6].pages && key in states[6].lost && states[6].log == []
      && states[6].holder.None? && key in states[6].drafts
      && (|prepared| > 1 ==> exists l | l in states[6].drafts[key].links :: l !in AllSlugs(states[6].pages))
  {
    AloneGetsReady(r, x, source, resource, today, raws, prepared);
    BrokenRunIsRun(r, x, source, prepared, today);
    BrokenRunEnds(r, x, source, resource, today, raws, prepared);
  }

  /** The same ingest when its plan is the source page alone and nothing fails. */
  function DoneRun(r: Rules, x: Extraction, source: string, prepared: seq<Prepared>, today: string): seq<State>
    requires |prepared| == 1
  {
    var locked := AloneWriting(prepared, today);
    UntilReady(r, x, source, prepared, today)
    + [locked, AfterWrite(locked, 0), AloneLogged(prepared, today)] + [AloneDone(prepared, today)]
  }

  function AloneLogged(prepared: seq<Prepared>, today: string): State
    requires |prepared| == 1
  {
    AfterLog(AfterWrite(AloneWriting(prepared, today), 0), 0)
  }

  function AloneDone(prepared: seq<Prepared>, today: string): State
    requires |prepared| == 1
  {
    AloneLogged(prepared, today).(jobs := [Reported], holder := None)
  }

  lemma AloneLogs(r: Rules, states: seq<State>, movers: seq<nat>, prepared: seq<Prepared>, today: string)
    requires |prepared| == 1 && Run(r, states, movers)
      && states[|movers|] == Start(1).(jobs := [Ready(prepared, today)])
    ensures var locked := AloneWriting(prepared, today);
      Run(r, states + [locked, AfterWrite(locked, 0), AloneLogged(prepared, today)], movers + [0, 0, 0])
  {
    var ready, locked := Start(1).(jobs := [Ready(prepared, today)]), AloneWriting(prepared, today);
    assert ready.jobs[0 := Writing(prepared, today, 0, [])] == locked.jobs;
    assert Locks(ready, locked, 0);
    assert Writes(locked, AfterWrite(locked, 0), 0);
    assert Logs(AfterWrite(locked, 0), AloneLogged(prepared, today), 0);
    RunExtendsByThree(r, states, movers, locked, AfterWrite(locked, 0), AloneLogged(prepared, today));
  }

  lemma AloneFinishes(r: Rules, states: seq<State>, movers: seq<nat>, prepared: seq<Prepared>, today: string)
    requires |prepared| == 1 && Run(r, states, movers)
      && states[|movers|] == Start(1).(jobs := [Ready(prepared, today)])
    ensures var locked := AloneWriting(prepared, today);
      Run(r, states + [locked, AfterWrite(locked, 0), AloneLogged(prepared, today)] + [AloneDone(prepared, today)],
          movers + [0, 0, 0] + [0])
  {
    var locked, logged := AloneWriting(prepared, today), AloneLogged(prepared, today);
    AloneLogs(r, states, movers, prepared, today);
    assert logged.jobs[0 := Reported] == AloneDone(prepared, today).jobs;
    assert Unlocks(logged, AloneDone(prepared, today), 0);
    RunExtends(r, states + [locked, AfterWrite(locked, 0), logged], movers + [0, 0, 0], AloneDone(prepared, today), 0);
  }

  lemma AloneStores(prepared: seq<Prepared>, today: string)
    requires |prepared| == 1
    ensures var s, key := AloneDone(prepared, today), prepared[0].Key();
      key in s.pages && s.log == [[key]] && s.jobs == [Reported]
  {
    assert [] + [prepared[0].Key()] == [prepared[0].Key()];
  }

  /** A first ingest can complete: its page is stored and logged as created by it. */
  lemma DoneRunReports(r: Rules, x: Extraction, source: string, resource: Option<string>, today: string,
                       raws: seq<string>, prepared: seq<Prepared>)
    requires today != "" && |prepared| == 1
    requires var ops := Plan(FirstContext(r, source), x, []);
      IsComposed(r, x, ops, source, ValidSlugs(ops, map[]), resource, today, raws, prepared)
    ensures var states, key := DoneRun(r, x, source, prepared, today), prepared[0].Key();
      && Run(r, states, [0, 0, 0, 0, 0, 0, 0]) && states[0] == Start(1)
      && key in states[7].pages && states[7].log == [[key]] && states[7].jobs == [Reported]
  {
    AloneGetsReady(r, x, source, resource, today, raws, prepared);
    AloneFinishes(r, UntilReady(r, x, source, prepared, today), [0, 0, 0], prepared, today);
    AloneStores(prepared, today);
    assert [0, 0, 0] + [0, 0, 0] + [0] == [0, 0, 0, 0, 0, 0, 0];
  }
}
