/** The embedding backfill: a bounded batch of the oldest chunk rows without a vector, embedded by a
    slow call during which other work goes on. */
module Backfill {
  import opened Strings
  import opened Store
  import opened Mirror

  // ---------------------------------------------------------------- the activity

  /** The first `n` rows without a vector, oldest first. */
  function FirstPending(chunks: seq<Chunk>, n: nat): seq<Chunk> {
    if chunks == [] then []
    else
      var before, c := FirstPending(chunks[..|chunks| - 1], n), chunks[|chunks| - 1];
      if c.vector.None? && |before| < n then before + [c] else before
  }

  /** Every row with that id gets the vector. */
  function SetVector(chunks: seq<Chunk>, id: nat, v: Vec): seq<Chunk> {
    seq(|chunks|, k requires 0 <= k < |chunks|
        => if chunks[k].id == id then chunks[k].(vector := Some(v)) else chunks[k])
  }

  /** The rows after the selected ones got their vectors; surplus rows or vectors are left aside. */
  function Assigned(chunks: seq<Chunk>, rows: seq<Chunk>, vectors: seq<Vec>): seq<Chunk> {
    if rows == [] then chunks
    else
      var n, before := |rows| - 1, Assigned(chunks, rows[..|rows| - 1], vectors);
      if n < |vectors| then SetVector(before, rows[n].id, vectors[n]) else before
  }

  function Remaining(chunks: seq<Chunk>): nat {
    if chunks == [] then 0 else Remaining(chunks[..|chunks| - 1]) + if chunks[|chunks| - 1].vector.None? then 1 else 0
  }

  method Select(s: Session, batch: nat) returns (rows: seq<Chunk>)
    ensures rows == FirstPending(s.chunks, batch)
  {
    rows := [];
    for i := 0 to |s.chunks|
      invariant rows == FirstPending(s.chunks[..i], batch)
    {
      assert s.chunks[..i + 1][..i] == s.chunks[..i];
      if s.chunks[i].vector.None? && |rows| < batch {
        rows := rows + [s.chunks[i]];
      }
    }
    assert s.chunks[..|s.chunks|] == s.chunks;
  }

  method Commit(s: Session, rows: seq<Chunk>, vectors: seq<Vec>)
    modifies s`chunks
    ensures s.chunks == Assigned(old(s.chunks), rows, vectors)
  {
    for k := 0 to |rows|
      invariant s.chunks == Assigned(old(s.chunks), rows[..k], vectors)
    {
      assert rows[..k + 1][..k] == rows[..k];
      if k < |vectors| {
        s.chunks := SetVector(s.chunks, rows[k].id, vectors[k]);
      }
    }
    assert rows[..|rows|] == rows;
  }

  /** One run with nothing else going on; `client` answers or fails. */
  method EmbedBackfill(s: Session, enabled: bool, batch: nat, client: seq<string> -> Option<seq<Vec>>)
    returns (embedded: nat, remaining: nat)
    modifies s`chunks
    ensures var rows := FirstPending(old(s.chunks), batch);
      var reply := client(seq(|rows|, k requires 0 <= k < |rows| => rows[k].text));
      if !enabled || rows == [] then s.chunks == old(s.chunks) && embedded == 0 && remaining == 0
      else if reply.None? then s.chunks == old(s.chunks) && embedded == 0 && remaining == Remaining(s.chunks)
      else (s.chunks == Assigned(old(s.chunks), rows, reply.value)
            && embedded == |rows| && remaining == Remaining(s.chunks))
  {
    if !enabled {
      return 0, 0;
    }
    var rows := Select(s, batch);
    if rows == [] {
      return 0, 0;
    }
    var texts := seq(|rows|, k requires 0 <= k < |rows| => rows[k].text);
    var reply := client(texts);
    assert texts == seq(|rows|, k requires 0 <= k < |rows| => rows[k].text);
    if reply.None? {
      return 0, Remaining(s.chunks);
    }
    Commit(s, rows, reply.value);
    return |rows|, Remaining(s.chunks);
  }

  // ---------------------------------------------------------------- how the chunk table evolves

  /** Rows stand in id order, ids below the next one. */
  predicate IdsInOrder(db: Db) {
    && InOrder(db.chunks)
    && forall i | 0 <= i < |db.chunks| :: db.chunks[i].id < db.nextChunk
  }

  predicate Embeds(embed: string -> Vec, c: Chunk) {
    c.vector == Some(embed(c.text))
  }

  /** `c` is row `d` with its text intact, its vector possibly filled in. */
  predicate Continues(embed: string -> Vec, d: Chunk, c: Chunk) {
    d.id == c.id && d.text == c.text && (c.vector == d.vector || Embeds(embed, c))
  }

  /** A later row is a new one or continues an earlier row. */
  ghost predicate Descends(embed: string -> Vec, a: Db, c: Chunk) {
    || (c.id >= a.nextChunk && (c.vector.None? || Embeds(embed, c)))
    || exists k | 0 <= k < |a.chunks| :: Continues(embed, a.chunks[k], c)
  }

  /** What mirrors, archiving and other backfill runs may do to the chunk table. */
  ghost predicate Evolves(embed: string -> Vec, a: Db, b: Db) {
    && a.nextChunk <= b.nextChunk && IdsInOrder(b)
    && forall k | 0 <= k < |b.chunks| :: Descends(embed, a, b.chunks[k])
  }

  lemma EvolvesSelf(embed: string -> Vec, a: Db)
    requires IdsInOrder(a)
    ensures Evolves(embed, a, a)
  {
    forall k | 0 <= k < |a.chunks|
      ensures Descends(embed, a, a.chunks[k])
    {
      assert Continues(embed, a.chunks[k], a.chunks[k]);
    }
  }

  lemma EvolvesTransitive(embed: string -> Vec, a: Db, b: Db, c: Db)
    requires Evolves(embed, a, b) && Evolves(embed, b, c)
    ensures Evolves(embed, a, c)
  {
    forall k | 0 <= k < |c.chunks|
      ensures Descends(embed, a, c.chunks[k])
    {
      var x := c.chunks[k];
      assert Descends(embed, b, x);
      if j :| 0 <= j < |b.chunks| && Continues(embed, b.chunks[j], x) {
        assert Descends(embed, a, b.chunks[j]);
        if i :| 0 <= i < |a.chunks| && Continues(embed, a.chunks[i], b.chunks[j]) {
          assert Continues(embed, a.chunks[i], x);
        }
      }
    }
  }

  lemma {:induction false} EvolvesAlong(embed: string -> Vec, history: seq<Db>, i: nat, j: nat)
    requires i <= j < |history| && IdsInOrder(history[i])
    requires forall k: nat | k < |history| - 1 :: Evolves(embed, history[k], history[k + 1])
    ensures Evolves(embed, history[i], history[j])
    decreases j
  {
    if i == j {
      EvolvesSelf(embed, history[i]);
    } else {
      EvolvesAlong(embed, history, i, j - 1);
      EvolvesTransitive(embed, history[i], history[j - 1], history[j]);
    }
  }

  /** Every stored vector is the embedding of its own row's text. */
  predicate Coherent(embed: string -> Vec, db: Db) {
    forall k | 0 <= k < |db.chunks| && db.chunks[k].vector.Some? :: Embeds(embed, db.chunks[k])
  }

  lemma EvolvingStaysCoherent(embed: string -> Vec, a: Db, b: Db)
    requires Coherent(embed, a) && Evolves(embed, a, b)
    ensures Coherent(embed, b)
  {
    forall k | 0 <= k < |b.chunks| && b.chunks[k].vector.Some?
      ensures Embeds(embed, b.chunks[k])
    {
      assert Descends(embed, a, b.chunks[k]);
      if i :| 0 <= i < |a.chunks| && Continues(embed, a.chunks[i], b.chunks[k]) {
        assert a.chunks[i].vector.Some? ==> Embeds(embed, a.chunks[i]);
      }
    }
  }

  // ---------------------------------------------------------------- commits evolve the table

  /** The client's answer: position by position the embeddings of the selected texts. */
  predicate Answers(embed: string -> Vec, rows: seq<Chunk>, vectors: seq<Vec>) {
    |vectors| == |rows| && forall k | 0 <= k < |rows| :: vectors[k] == embed(rows[k].text)
  }

  /** What row `k` is after the vectors were assigned. */
  predicate GotVector(embed: string -> Vec, rows: seq<Chunk>, before: Chunk, after: Chunk) {
    && after == before.(vector := after.vector)
    && (after.vector == before.vector
        || exists r | r in rows :: r.id == before.id && after.vector == Some(embed(r.text)))
    && ((exists r | r in rows :: r.id == before.id) ==> after.vector.Some?)
  }

  lemma {:induction false} AssignedRow(embed: string -> Vec, chunks: seq<Chunk>, rows: seq<Chunk>, vectors: seq<Vec>,
                                       k: nat)
    requires |rows| <= |vectors| && Answers(embed, rows, vectors[..|rows|]) && k < |chunks|
    ensures |Assigned(chunks, rows, vectors)| == |chunks|
    ensures GotVector(embed, rows, chunks[k], Assigned(chunks, rows, vectors)[k])
  {
    if rows != [] {
      var n := |rows| - 1;
      assert vectors[..n] == vectors[..|rows|][..n];
      AssignedRow(embed, chunks, rows[..n], vectors, k);
      assert rows == rows[..n] + [rows[n]];
      assert vectors[n] == vectors[..|rows|][n];
      assert forall r :: r in rows <==> r in rows[..n] || r == rows[n];
    }
  }

  /** Rows selected in table `a` and committed to a later table `b`, whatever happened in between. */
  lemma CommitEvolves(embed: string -> Vec, a: Db, b: Db, n: nat, vectors: seq<Vec>)
    requires IdsInOrder(a) && Evolves(embed, a, b) && Answers(embed, FirstPending(a.chunks, n), vectors)
    ensures Evolves(embed, b, b.(chunks := Assigned(b.chunks, FirstPending(a.chunks, n), vectors)))
  {
    var rows := FirstPending(a.chunks, n);
    var out := b.(chunks := Assigned(b.chunks, rows, vectors));
    assert vectors[..|rows|] == vectors;
    AssignedLength(b.chunks, rows, vectors);
    forall k | 0 <= k < |b.chunks|
      ensures out.chunks[k].id == b.chunks[k].id && Continues(embed, b.chunks[k], out.chunks[k])
    {
      AssignedRow(embed, b.chunks, rows, vectors, k);
      SelectedTextIsCurrent(embed, a, b, n, k);
    }
    forall k | 0 <= k < |out.chunks|
      ensures Descends(embed, b, out.chunks[k])
    {
      assert Continues(embed, b.chunks[k], out.chunks[k]);
    }
  }

  lemma {:induction false} AssignedLength(chunks: seq<Chunk>, rows: seq<Chunk>, vectors: seq<Vec>)
    ensures |Assigned(chunks, rows, vectors)| == |chunks|
  {
    if rows != [] {
      AssignedLength(chunks, rows[..|rows| - 1], vectors);
    }
  }

  lemma {:induction false} FirstPendingFrom(chunks: seq<Chunk>, n: nat)
    ensures forall r | r in FirstPending(chunks, n) :: r in chunks && r.vector.None?
    ensures |FirstPending(chunks, n)| <= n
  {
    if chunks != [] {
      FirstPendingFrom(chunks[..|chunks| - 1], n);
    }
  }

  /** A row of the later table that shares its id with a selected row shares its text. */
  lemma SelectedTextIsCurrent(embed: string -> Vec, a: Db, b: Db, n: nat, k: nat)
    requires IdsInOrder(a) && Evolves(embed, a, b) && k < |b.chunks|
    ensures forall r | r in FirstPending(a.chunks, n) && r.id == b.chunks[k].id :: r.text == b.chunks[k].text
  {
    FirstPendingFrom(a.chunks, n);
    assert Descends(embed, a, b.chunks[k]);
    forall r | r in FirstPending(a.chunks, n) && r.id == b.chunks[k].id
      ensures r.text == b.chunks[k].text
    {
      var i :| 0 <= i < |a.chunks| && a.chunks[i] == r;
      var j :| 0 <= j < |a.chunks| && Continues(embed, a.chunks[j], b.chunks[k]);
      assert i == j;
    }
  }

  // ---------------------------------------------------------------- bounded wait

  /** The ids of the pending rows older than `id`. */
  function OlderPending(chunks: seq<Chunk>, id: nat): set<nat> {
    set k | 0 <= k < |chunks| && chunks[k].vector.None? && chunks[k].id < id :: chunks[k].id
  }

  predicate IsPending(chunks: seq<Chunk>, id: nat) {
    exists k | 0 <= k < |chunks| :: chunks[k].id == id && chunks[k].vector.None?
  }

  function IdsOf(rows: seq<Chunk>): set<nat> {
    set k | 0 <= k < |rows| :: rows[k].id
  }

  /** Newer rows arriving and older ones going away never push a row back. */
  lemma EvolvingKeepsRank(embed: string -> Vec, a: Db, b: Db, id: nat)
    requires Evolves(embed, a, b) && id < a.nextChunk
    ensures OlderPending(b.chunks, id) <= OlderPending(a.chunks, id)
    ensures IsPending(b.chunks, id) ==> IsPending(a.chunks, id)
  {
    forall k | 0 <= k < |b.chunks| && b.chunks[k].vector.None? && b.chunks[k].id <= id
      ensures exists j | 0 <= j < |a.chunks| :: a.chunks[j].id == b.chunks[k].id && a.chunks[j].vector.None?
    {
      assert Descends(embed, a, b.chunks[k]);
      var j :| 0 <= j < |a.chunks| && Continues(embed, a.chunks[j], b.chunks[k]);
      assert a.chunks[j].vector.None?;
    }
  }

  predicate InOrder(chunks: seq<Chunk>) {
    forall i, j | 0 <= i < j < |chunks| :: chunks[i].id < chunks[j].id
  }

  /** The selected rows keep the order of the table. */
  lemma {:induction false} FirstPendingInOrder(chunks: seq<Chunk>, n: nat)
    requires InOrder(chunks)
    ensures InOrder(FirstPending(chunks, n))
  {
    if chunks != [] {
      var front, c := chunks[..|chunks| - 1], chunks[|chunks| - 1];
      FirstPendingInOrder(front, n);
      FirstPendingFrom(front, n);
      forall i | 0 <= i < |FirstPending(front, n)|
        ensures FirstPending(front, n)[i].id < c.id
      {
        assert FirstPending(front, n)[i] in front;
      }
    }
  }

  lemma {:induction false} IdsOfSize(rows: seq<Chunk>)
    requires InOrder(rows)
    ensures |IdsOf(rows)| == |rows|
  {
    if rows != [] {
      var front, c := rows[..|rows| - 1], rows[|rows| - 1];
      IdsOfSize(front);
      assert forall k | 0 <= k < |front| :: rows[k] == front[k];
      assert IdsOf(rows) == IdsOf(front) + {c.id};
    }
  }

  lemma IdsOfMember(rows: seq<Chunk>, id: nat)
    ensures id in IdsOf(rows) <==> exists r | r in rows :: r.id == id
  {
    if k :| 0 <= k < |rows| && rows[k].id == id {
      assert rows[k] in rows;
    }
  }

  /** A full batch that leaves a pending row out holds older rows only. */
  lemma {:induction false} PassedOver(chunks: seq<Chunk>, n: nat, k: nat)
    requires InOrder(chunks) && k < |chunks| && chunks[k].vector.None? && chunks[k] !in FirstPending(chunks, n)
    ensures |FirstPending(chunks, n)| == n && forall r | r in FirstPending(chunks, n) :: r.id < chunks[k].id
  {
    var front := chunks[..|chunks| - 1];
    FirstPendingFrom(front, n);
    if k < |front| {
      PassedOver(front, n, k);
    }
  }

  /** A pending row is selected, or the batch is full of rows older than it. */
  lemma SelectedOrBehind(db: Db, n: nat, id: nat)
    requires IdsInOrder(db) && IsPending(db.chunks, id)
    ensures var rows := FirstPending(db.chunks, n);
      id in IdsOf(rows) || (|IdsOf(rows)| == n && IdsOf(rows) <= OlderPending(db.chunks, id))
  {
    var rows := FirstPending(db.chunks, n);
    var k :| 0 <= k < |db.chunks| && db.chunks[k].id == id && db.chunks[k].vector.None?;
    IdsOfMember(rows, id);
    if db.chunks[k] !in rows {
      PassedOver(db.chunks, n, k);
      FirstPendingInOrder(db.chunks, n);
      IdsOfSize(rows);
      FirstPendingFrom(db.chunks, n);
      forall j | 0 <= j < |rows|
        ensures rows[j].id in OlderPending(db.chunks, id)
      {
        assert rows[j] in rows;
        var i :| 0 <= i < |db.chunks| && db.chunks[i] == rows[j];
      }
    }
  }

  /** One successful run: rows are selected, the table evolves while the client works, and the vectors
      are committed. */
  ghost predicate Run(embed: string -> Vec, n: nat, a: Db, b: Db) {
    exists mid: Db, vectors :: Evolves(embed, a, mid) && Answers(embed, FirstPending(a.chunks, n), vectors)
      && b == mid.(chunks := Assigned(mid.chunks, FirstPending(a.chunks, n), vectors))
  }

  lemma RunEvolves(embed: string -> Vec, n: nat, a: Db, b: Db)
    requires IdsInOrder(a) && Run(embed, n, a, b)
    ensures Evolves(embed, a, b)
  {
    var mid: Db, vectors :| Evolves(embed, a, mid) && Answers(embed, FirstPending(a.chunks, n), vectors)
      && b == mid.(chunks := Assigned(mid.chunks, FirstPending(a.chunks, n), vectors));
    CommitEvolves(embed, a, mid, n, vectors);
    EvolvesTransitive(embed, a, mid, b);
  }

  /** A row still pending after a run has moved up by the whole batch. */
  lemma RunAdvances(embed: string -> Vec, n: nat, a: Db, b: Db, id: nat)
    requires IdsInOrder(a) && Run(embed, n, a, b) && id < a.nextChunk && IsPending(b.chunks, id)
    ensures |OlderPending(b.chunks, id)| + n <= |OlderPending(a.chunks, id)|
  {
    RunEvolves(embed, n, a, b);
    EvolvingKeepsRank(embed, a, b, id);
    SelectedOrBehind(a, n, id);
    SelectedAreGone(embed, n, a, b);
    StillPending(b.chunks, IdsOf(FirstPending(a.chunks, n)), id);
    SubsetSize(OlderPending(b.chunks, id), OlderPending(a.chunks, id) - IdsOf(FirstPending(a.chunks, n)));
  }

  lemma StillPending(chunks: seq<Chunk>, gone: set<nat>, id: nat)
    requires NonePending(chunks, gone)
    ensures OlderPending(chunks, id) !! gone && (IsPending(chunks, id) ==> id !in gone)
  {
  }

  predicate NonePending(chunks: seq<Chunk>, ids: set<nat>) {
    forall k | 0 <= k < |chunks| && chunks[k].vector.None? :: chunks[k].id !in ids
  }

  /** After a run none of the rows it selected is pending. */
  lemma SelectedAreGone(embed: string -> Vec, n: nat, a: Db, b: Db)
    requires Run(embed, n, a, b)
    ensures NonePending(b.chunks, IdsOf(FirstPending(a.chunks, n)))
  {
    var rows := FirstPending(a.chunks, n);
    var mid: Db, vectors :| Evolves(embed, a, mid) && Answers(embed, rows, vectors)
      && b == mid.(chunks := Assigned(mid.chunks, rows, vectors));
    assert vectors[..|rows|] == vectors;
    AssignedLength(mid.chunks, rows, vectors);
    forall k | 0 <= k < |b.chunks| && b.chunks[k].vector.None?
      ensures b.chunks[k].id !in IdsOf(rows)
    {
      AssignedRow(embed, mid.chunks, rows, vectors, k);
      IdsOfMember(rows, b.chunks[k].id);
    }
  }

  lemma {:induction false} SubsetSize(a: set<nat>, b: set<nat>)
    requires a <= b
    ensures |a| <= |b|
  {
    if a != {} {
      var x :| x in a;
      SubsetSize(a - {x}, b - {x});
    }
  }

  /** A history of the chunk table: `ran[i]` says whether step `i` was a successful run or other work. */
  ghost predicate History(embed: string -> Vec, n: nat, states: seq<Db>, ran: seq<bool>) {
    && |states| == |ran| + 1 && IdsInOrder(states[0])
    && forall i | 0 <= i < |ran| ::
         if ran[i] then Run(embed, n, states[i], states[i + 1]) else Evolves(embed, states[i], states[i + 1])
  }

  function Runs(ran: seq<bool>): nat {
    if ran == [] then 0 else Runs(ran[..|ran| - 1]) + if ran[|ran| - 1] then 1 else 0
  }

  lemma {:induction false} HistoryEvolves(embed: string -> Vec, n: nat, states: seq<Db>, ran: seq<bool>, m: nat)
    requires History(embed, n, states, ran) && m <= |ran|
    ensures Evolves(embed, states[0], states[m])
  {
    if m == 0 {
      EvolvesSelf(embed, states[0]);
    } else {
      HistoryEvolves(embed, n, states, ran, m - 1);
      var a, b := states[m - 1], states[m];
      if ran[m - 1] {
        RunEvolves(embed, n, a, b);
      }
      EvolvesTransitive(embed, states[0], a, b);
    }
  }

  /** Rows moved up by `runs` batches. */
  function Advance(runs: nat, n: nat): nat {
    if runs == 0 then 0 else Advance(runs - 1, n) + n
  }

  lemma {:induction false} AdvanceIsProduct(runs: nat, n: nat)
    ensures Advance(runs, n) == runs * n
  {
    if runs > 0 {
      AdvanceIsProduct(runs - 1, n);
      assert runs * n == (runs - 1) * n + n;
    }
  }

  lemma StepAdvances(embed: string -> Vec, n: nat, a: Db, b: Db, ran: bool, id: nat)
    requires IdsInOrder(a) && id < a.nextChunk && IsPending(b.chunks, id)
    requires if ran then Run(embed, n, a, b) else Evolves(embed, a, b)
    ensures IsPending(a.chunks, id)
    ensures |OlderPending(b.chunks, id)| + (if ran then n else 0) <= |OlderPending(a.chunks, id)|
  {
    if ran {
      RunEvolves(embed, n, a, b);
      RunAdvances(embed, n, a, b, id);
    }
    EvolvingKeepsRank(embed, a, b, id);
    SubsetSize(OlderPending(b.chunks, id), OlderPending(a.chunks, id));
  }

  lemma HistoryAdvances(embed: string -> Vec, n: nat, states: seq<Db>, ran: seq<bool>, m: nat, id: nat)
    requires History(embed, n, states, ran) && m < |ran| && id < states[0].nextChunk
    requires IsPending(states[m + 1].chunks, id)
    ensures IsPending(states[m].chunks, id)
    ensures |OlderPending(states[m + 1].chunks, id)| + (if ran[m] then n else 0) <= |OlderPending(states[m].chunks, id)|
  {
    HistoryEvolves(embed, n, states, ran, m);
    StepAdvances(embed, n, states[m], states[m + 1], ran[m], id);
  }

  lemma AdvanceStep(ran: seq<bool>, m: nat, n: nat)
    requires 0 < m <= |ran|
    ensures Advance(Runs(ran[..m]), n) == Advance(Runs(ran[..m - 1]), n) + if ran[m - 1] then n else 0
  {
    assert ran[..m][..m - 1] == ran[..m - 1];
  }

  lemma {:induction false} WaitIsBounded(embed: string -> Vec, n: nat, states: seq<Db>, ran: seq<bool>, m: nat, id: nat)
    requires History(embed, n, states, ran) && m <= |ran| && id < states[0].nextChunk && IsPending(states[m].chunks, id)
    ensures |OlderPending(states[m].chunks, id)| + Advance(Runs(ran[..m]), n) <= |OlderPending(states[0].chunks, id)|
  {
    if m > 0 {
      HistoryAdvances(embed, n, states, ran, m - 1, id);
      WaitIsBounded(embed, n, states, ran, m - 1, id);
      AdvanceStep(ran, m, n);
    }
  }

  /** A pending row with `r` older pending rows has its vector, or is gone, after `r / batch + 1`
      successful runs, however many newer rows arrive. */
  lemma EmbeddedWithinBound(embed: string -> Vec, n: nat, states: seq<Db>, ran: seq<bool>, id: nat)
    requires n > 0 && History(embed, n, states, ran) && id < states[0].nextChunk
    requires Runs(ran) >= |OlderPending(states[0].chunks, id)| / n + 1
    ensures !IsPending(states[|ran|].chunks, id)
  {
    if IsPending(states[|ran|].chunks, id) {
      WaitIsBounded(embed, n, states, ran, |ran|, id);
      assert ran[..|ran|] == ran;
      EnoughRuns(|OlderPending(states[0].chunks, id)|, Runs(ran), n);
      assert false;
    }
  }

  lemma EnoughRuns(r: nat, runs: nat, n: nat)
    requires n > 0 && runs >= r / n + 1
    ensures Advance(runs, n) > r
  {
    AdvanceIsProduct(runs, n);
    ProductGrows(r / n + 1, runs, n);
    assert (r / n + 1) * n == (r / n) * n + n;
  }

  lemma ProductGrows(a: nat, b: nat, n: nat)
    requires a <= b
    ensures a * n <= b * n
  {
  }

  /** Runs that overlap do not add up: of two pending rows and a batch of one, two runs that both select
      before either commits embed the first row twice and leave the second one pending. */
  lemma OverlappingRunsSelectTheSame(embed: string -> Vec, db: Db, a: Chunk, b: Chunk)
    requires db.chunks == [a, b] && IdsInOrder(db) && a.vector.None? && b.vector.None?
    ensures var rows, vectors := [a], [embed(a.text)];
      var once := db.(chunks := Assigned(db.chunks, rows, vectors));
      var twice := once.(chunks := Assigned(once.chunks, rows, vectors));
      && Run(embed, 1, db, once) && Run(embed, 1, db, twice) && twice == once
      && OlderPending(db.chunks, b.id) == {a.id} && IsPending(twice.chunks, b.id)
  {
    var rows, vectors := [a], [embed(a.text)];
    var once := db.(chunks := Assigned(db.chunks, rows, vectors));
    FirstOfTwo(a, b);
    AssignedFirst(a, b, a, embed(a.text));
    AssignedFirst(a.(vector := Some(embed(a.text))), b, a, embed(a.text));
    assert db.chunks[0].id < db.chunks[1].id;
    EvolvesSelf(embed, db);
    assert Answers(embed, rows, vectors);
    assert db.chunks[0] == a && db.chunks[1] == b && once.chunks[1] == b;
  }

  lemma FirstOfTwo(a: Chunk, b: Chunk)
    requires a.vector.None?
    ensures FirstPending([a, b], 1) == [a]
  {
    assert [a, b][..1] == [a] && [a][..0] == [];
    assert FirstPending([a], 1) == [] + [a];
  }

  lemma AssignedFirst(row: Chunk, b: Chunk, a: Chunk, v: Vec)
    requires row.id == a.id && row.id != b.id
    ensures Assigned([row, b], [a], [v]) == [row.(vector := Some(v)), b]
  {
    assert [a][..0] == [] && Assigned([row, b], [], [v]) == [row, b];
  }

  // ---------------------------------------------------------------- what the mirror does to the table

  lemma {:induction false} NewRowsIds(next: nat, slug: string, version: nat, texts: seq<string>)
    ensures var rows := NewRows(next, slug, version, texts);
      |rows| == |texts| && forall k | 0 <= k < |rows| :: rows[k].id == next + k && rows[k].vector.None?
  {
    if texts != [] {
      NewRowsIds(next, slug, version, texts[..|texts| - 1]);
    }
  }

  lemma {:induction false} OthersInOrder(chunks: seq<Chunk>, slug: string)
    requires forall i, j | 0 <= i < j < |chunks| :: chunks[i].id < chunks[j].id
    ensures forall i, j | 0 <= i < j < |Others(chunks, slug)| :: Others(chunks, slug)[i].id < Others(chunks, slug)[j].id
    ensures forall i | 0 <= i < |Others(chunks, slug)| :: Others(chunks, slug)[i] in chunks
  {
    if chunks != [] {
      var front, c := chunks[..|chunks| - 1], chunks[|chunks| - 1];
      OthersInOrder(front, slug);
      forall i | 0 <= i < |Others(front, slug)|
        ensures Others(front, slug)[i].id < c.id
      {
        assert Others(front, slug)[i] in front;
      }
    }
  }

  lemma RechunkEvolves(embed: string -> Vec, db: Db, slug: string, version: nat, texts: seq<string>)
    requires IdsInOrder(db)
    ensures Evolves(embed, db, Rechunked(db, slug, version, texts))
  {
    var kept, rows := Others(db.chunks, slug), NewRows(db.nextChunk, slug, version, texts);
    OthersInOrder(db.chunks, slug);
    NewRowsIds(db.nextChunk, slug, version, texts);
    forall i | 0 <= i < |kept|
      ensures kept[i].id < db.nextChunk && Descends(embed, db, kept[i])
    {
      var j :| 0 <= j < |db.chunks| && db.chunks[j] == kept[i];
      assert Continues(embed, db.chunks[j], kept[i]);
    }
    var out := Rechunked(db, slug, version, texts);
    forall i | 0 <= i < |out.chunks|
      ensures Descends(embed, db, out.chunks[i])
    {
      assert out.chunks[i] == if i < |kept| then kept[i] else rows[i - |kept|];
    }
  }

  /** Only the chunk table matters. */
  lemma SameChunks(embed: string -> Vec, a: Db, b: Db, b': Db)
    requires Evolves(embed, a, b) && b'.chunks == b.chunks && b'.nextChunk == b.nextChunk
    ensures Evolves(embed, a, b')
  {
  }

  lemma PageEvolves(t: Tools, embed: string -> Vec, db: Db, e: Entry)
    requires IdsInOrder(db)
    ensures Evolves(embed, db, PageMirrored(t, db, e))
  {
    var out, texts := PageMirrored(t, db, e), t.chunks(e.page.body);
    if !Unchanged(db, e) || TextsOf(db.chunks, e.Slug()) == [] {
      var v := if Unchanged(db, e) then db.items[e.Slug()].current.value else |db.versions|;
      RechunkEvolves(embed, db, e.Slug(), v, texts);
      SameChunks(embed, db, Rechunked(db, e.Slug(), v, texts), out);
    } else {
      EvolvesSelf(embed, db);
      SameChunks(embed, db, db, out);
    }
  }

  /** A whole mirror is work of the kind a backfill may overlap with. */
  lemma {:induction false} MirrorEvolves(t: Tools, embed: string -> Vec, db: Db, entries: seq<Entry>)
    requires IdsInOrder(db)
    ensures Evolves(embed, db, FirstPass(t, db, entries)) && Evolves(embed, db, Mirrored(t, db, entries))
    decreases |entries|
  {
    if entries == [] {
      EvolvesSelf(embed, db);
    } else {
      var front := entries[..|entries| - 1];
      MirrorEvolves(t, embed, db, front);
      PageEvolves(t, embed, FirstPass(t, db, front), entries[|entries| - 1]);
      EvolvesTransitive(embed, db, FirstPass(t, db, front), FirstPass(t, db, entries));
    }
    SameChunks(embed, db, FirstPass(t, db, entries), Mirrored(t, db, entries));
  }

  /** The places of the rows that wait for a vector. */
  function Waiting(chunks: seq<Chunk>): set<nat> {
    set k: nat | k < |chunks| && chunks[k].vector.None?
  }

  /** What a run reports as remaining is the number of rows without a vector. */
  lemma {:induction false} RemainingCounts(chunks: seq<Chunk>)
    ensures Remaining(chunks) == |Waiting(chunks)|
  {
    if chunks == [] {
      assert Waiting(chunks) == {};
    } else {
      var n := |chunks| - 1;
      var before := Waiting(chunks[..n]);
      RemainingCounts(chunks[..n]);
      assert Waiting(chunks) == before + if chunks[n].vector.None? then {n} else {};
      assert n !in before;
    }
  }
}
