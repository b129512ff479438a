/** Markdown chunking for embedding: paragraphs packed greedily into chunks, each later chunk
    opening with the tail of the one before it. */
module Chunking {
  import opened Strings

  const Sep := "\n\n"

  // ---------------------------------------------------------------- paragraphs

  /** `text.split("\n\n")`. */
  function Split(text: string): (parts: seq<string>)
    ensures |parts| > 0
    decreases |text|
  {
    match Find(text, Sep, 0)
    case None => [text]
    case Some(i) => [text[..i]] + Split(text[i + 2..])
  }

  /** `[p.strip() for p in parts if p.strip()]`. */
  function KeepNonBlank(parts: seq<string>): (ps: seq<string>)
    ensures forall i | 0 <= i < |ps| :: |ps[i]| > 0
  {
    if parts == [] then []
    else
      var p, rest := Strip(parts[0]), KeepNonBlank(parts[1..]);
      if |p| == 0 then rest else [p] + rest
  }

  function Paragraphs(text: string): seq<string> {
    KeepNonBlank(Split(text))
  }

  /** A character's contribution to the visible text. */
  function InkOf(c: char): string {
    if IsSpace(c) then "" else [c]
  }

  /** The visible characters of a text, in order. */
  function Ink(s: string): string {
    if s == "" then "" else InkOf(s[0]) + Ink(s[1..])
  }

  // ---------------------------------------------------------------- packing

  /** The opening of the chunk that follows `prev`: its last `overlap` characters and a blank line. */
  function Carry(prev: string, overlap: nat): string {
    var tail := if overlap < |prev| then prev[|prev| - overlap..] else prev;
    if overlap == 0 || tail == "" then "" else tail + Sep
  }

  /** One more paragraph: it joins the open chunk when it fits, else it opens the next one. */
  function Add(chunks: seq<string>, para: string, maxChars: int, overlap: nat): seq<string> {
    if chunks == [] then [para]
    else
      var n := |chunks| - 1;
      if |chunks[n]| + |Sep| + |para| <= maxChars
      then chunks[..n] + [chunks[n] + (Sep + para)]
      else chunks + [Carry(chunks[n], overlap) + para]
  }

  /** The closed chunks and the text of the open one. */
  datatype Packing = Packing(closed: seq<string>, current: string) {
    function Chunks(): seq<string> {
      if current == "" then closed else closed + [current]
    }

    function Push(para: string, maxChars: int, overlap: nat): Packing {
      if current == "" then Packing(closed, para)
      else if |current + (Sep + para)| <= maxChars then Packing(closed, current + (Sep + para))
      else Packing(closed + [current], Carry(current, overlap) + para)
    }
  }

  function PackState(ps: seq<string>, maxChars: int, overlap: nat): Packing {
    if ps == [] then Packing([], "")
    else PackState(ps[..|ps| - 1], maxChars, overlap).Push(ps[|ps| - 1], maxChars, overlap)
  }

  /** The chunks of a list of paragraphs. */
  function Pack(ps: seq<string>, maxChars: int, overlap: nat): seq<string> {
    PackState(ps, maxChars, overlap).Chunks()
  }

  predicate NonBlank(ps: seq<string>) {
    forall i | 0 <= i < |ps| :: |ps[i]| > 0
  }

  lemma {:induction false} OpensAtOnce(ps: seq<string>, maxChars: int, overlap: nat)
    requires NonBlank(ps)
    ensures var st := PackState(ps, maxChars, overlap);
      (ps == [] <==> |st.current| == 0) && (ps == [] ==> st.closed == [])
  {
    if ps != [] {
      OpensAtOnce(ps[..|ps| - 1], maxChars, overlap);
    }
  }

  lemma PackStep(front: seq<string>, para: string, maxChars: int, overlap: nat)
    requires NonBlank(front) && |para| > 0
    ensures PackState(front + [para], maxChars, overlap)
      == PackState(front, maxChars, overlap).Push(para, maxChars, overlap)
    ensures Pack(front + [para], maxChars, overlap) == Add(Pack(front, maxChars, overlap), para, maxChars, overlap)
  {
    assert (front + [para])[..|front|] == front;
    OpensAtOnce(front, maxChars, overlap);
    var st := PackState(front, maxChars, overlap);
    if st.current != "" {
      assert (st.closed + [st.current])[..|st.closed|] == st.closed;
    }
  }

  method ChunkMarkdown(text: string, maxChars: int := 2000, overlap: nat := 200) returns (chunks: seq<string>)
    ensures chunks == Pack(Paragraphs(text), maxChars, overlap)
  {
    chunks := PackParagraphs(Paragraphs(text), maxChars, overlap);
  }

  method PackParagraphs(paragraphs: seq<string>, maxChars: int, overlap: nat) returns (chunks: seq<string>)
    requires NonBlank(paragraphs)
    ensures chunks == Pack(paragraphs, maxChars, overlap)
  {
    chunks := [];
    var current := "";
    for i := 0 to |paragraphs|
      invariant PackState(paragraphs[..i], maxChars, overlap) == Packing(chunks, current)
    {
      var para := paragraphs[i];
      PackStep(paragraphs[..i], para, maxChars, overlap);
      assert paragraphs[..i + 1] == paragraphs[..i] + [para];
      TailIsCarry(current, para, overlap);
      var candidate := if current == "" then para else current + (Sep + para);
      if |candidate| <= maxChars || current == "" {
        current := candidate;
      } else {
        var tail := if overlap == 0 then "" else current[if overlap < |current| then |current| - overlap else 0..];
        chunks := chunks + [current];
        current := if tail == "" then para else (tail + Sep) + para;
      }
    }
    assert paragraphs[..|paragraphs|] == paragraphs;
    if current != "" {
      chunks := chunks + [current];
    }
  }

  lemma TailIsCarry(current: string, para: string, overlap: nat)
    ensures var tail := if overlap == 0 then "" else current[if overlap < |current| then |current| - overlap else 0..];
      Carry(current, overlap) + para == if tail == "" then para else (tail + Sep) + para
  {
    assert current[0..] == current && "" + para == para;
  }

  // ---------------------------------------------------------------- lossless

  /** What chunk `next` adds to its predecessor: everything after the repeated tail. */
  function Fresh(prev: string, next: string, overlap: nat): string {
    var kept := if overlap < |prev| then overlap else |prev|;
    if overlap == 0 then Sep + next else if kept <= |next| then next[kept..] else ""
  }

  /** Undo the overlap: the first chunk followed by what each later chunk adds. */
  function Rejoin(chunks: seq<string>, overlap: nat): string {
    if |chunks| == 0 then ""
    else if |chunks| == 1 then chunks[0]
    else Rejoin(chunks[..|chunks| - 1], overlap) + Fresh(chunks[|chunks| - 2], chunks[|chunks| - 1], overlap)
  }

  lemma CarryThenFresh(prev: string, para: string, overlap: nat)
    requires prev != ""
    ensures Fresh(prev, Carry(prev, overlap) + para, overlap) == Sep + para
  {
  }

  /** Extending the last chunk extends what it adds. */
  lemma FreshExtends(prev: string, next: string, more: string, overlap: nat)
    requires overlap == 0 || |next| >= (if overlap < |prev| then overlap else |prev|)
    ensures Fresh(prev, next + more, overlap) == Fresh(prev, next, overlap) + more
  {
  }

  predicate StartsWithCarry(chunks: seq<string>, overlap: nat, k: nat) {
    0 < k < |chunks| ==> Carry(chunks[k - 1], overlap) <= chunks[k]
  }

  /** No chunk is empty, and each later one starts with its predecessor's tail and a blank line. */
  ghost predicate CoversCarry(chunks: seq<string>, overlap: nat) {
    NonBlank(chunks) && forall k: nat :: StartsWithCarry(chunks, overlap, k)
  }

  lemma PrefixExtends(prefix: string, s: string, more: string)
    requires prefix <= s
    ensures prefix <= s + more
  {
  }

  lemma AddCoversCarry(chunks: seq<string>, para: string, maxChars: int, overlap: nat)
    requires CoversCarry(chunks, overlap) && para != ""
    ensures CoversCarry(Add(chunks, para, maxChars, overlap), overlap)
  {
    var after := Add(chunks, para, maxChars, overlap);
    forall k: nat
      ensures StartsWithCarry(after, overlap, k)
    {
      assert StartsWithCarry(chunks, overlap, k);
      if 0 < k < |chunks| {
        PrefixExtends(Carry(chunks[k - 1], overlap), chunks[k], Sep + para);
        assert after[k - 1] == chunks[k - 1];
      }
    }
  }

  lemma AddRejoins(chunks: seq<string>, para: string, maxChars: int, overlap: nat)
    requires CoversCarry(chunks, overlap) && chunks != []
    ensures Rejoin(Add(chunks, para, maxChars, overlap), overlap) == Rejoin(chunks, overlap) + (Sep + para)
  {
    var after, n := Add(chunks, para, maxChars, overlap), |chunks| - 1;
    if |chunks[n]| + |Sep| + |para| <= maxChars {
      if n > 0 {
        assert after[..n] == chunks[..n];
        assert StartsWithCarry(chunks, overlap, n);
        FreshExtends(chunks[n - 1], chunks[n], Sep + para, overlap);
        Assoc(Rejoin(chunks[..n], overlap), Fresh(chunks[n - 1], chunks[n], overlap), Sep + para);
      }
    } else {
      assert after[..n + 1] == chunks;
      CarryThenFresh(chunks[n], para, overlap);
    }
  }

  /** Dropping every overlap gives back the paragraphs joined by blank lines. */
  lemma {:induction false} PackLossless(ps: seq<string>, maxChars: int, overlap: nat)
    requires NonBlank(ps)
    ensures var chunks := Pack(ps, maxChars, overlap);
      && CoversCarry(chunks, overlap)
      && (ps != [] ==> chunks != [])
      && Rejoin(chunks, overlap) == Join(ps, Sep)
  {
    if ps != [] {
      var front, para := ps[..|ps| - 1], ps[|ps| - 1];
      PackLossless(front, maxChars, overlap);
      PackStep(front, para, maxChars, overlap);
      assert ps == front + [para];
      AddCoversCarry(Pack(front, maxChars, overlap), para, maxChars, overlap);
      if front != [] {
        AddRejoins(Pack(front, maxChars, overlap), para, maxChars, overlap);
        Assoc(Join(front, Sep), Sep, para);
      }
    }
  }

  // ---------------------------------------------------------------- grouping and size

  function Flatten(groups: seq<seq<string>>): seq<string> {
    if groups == [] then [] else Flatten(groups[..|groups| - 1]) + groups[|groups| - 1]
  }

  function Opening(chunks: seq<string>, k: nat, overlap: nat): string
    requires k < |chunks|
  {
    if k == 0 then "" else Carry(chunks[k - 1], overlap)
  }

  /** Chunk `k` is its opening and its run of paragraphs; it fits unless the run is a single
      paragraph; and it was closed only because the next paragraph did not fit. */
  predicate GroupFits(maxChars: int, overlap: nat, chunks: seq<string>, groups: seq<seq<string>>, k: nat)
    requires k < |chunks| == |groups|
  {
    && groups[k] != []
    && chunks[k] == Opening(chunks, k, overlap) + Join(groups[k], Sep)
    && (|chunks[k]| <= maxChars || |groups[k]| == 1)
    && (k + 1 < |groups| && groups[k + 1] != [] ==> |chunks[k]| + |Sep| + |groups[k + 1][0]| > maxChars)
  }

  /** `groups` cuts the paragraphs into consecutive non-empty runs, one run per chunk. */
  predicate IsPacking(ps: seq<string>, maxChars: int, overlap: nat, chunks: seq<string>, groups: seq<seq<string>>) {
    && |groups| == |chunks|
    && Flatten(groups) == ps
    && forall k: nat | k < |groups| :: GroupFits(maxChars, overlap, chunks, groups, k)
  }

  /** No paragraph is split, and the packing is greedy. */
  lemma {:induction false} PackKeepsParagraphsWhole(ps: seq<string>, maxChars: int, overlap: nat)
    requires NonBlank(ps)
    ensures exists groups :: IsPacking(ps, maxChars, overlap, Pack(ps, maxChars, overlap), groups)
  {
    if ps == [] {
      var none: seq<seq<string>> := [];
      assert IsPacking(ps, maxChars, overlap, Pack(ps, maxChars, overlap), none);
    } else {
      var front, para := ps[..|ps| - 1], ps[|ps| - 1];
      assert ps == front + [para];
      PackKeepsParagraphsWhole(front, maxChars, overlap);
      var before := Pack(front, maxChars, overlap);
      PackStep(front, para, maxChars, overlap);
      var gs :| IsPacking(front, maxChars, overlap, before, gs);
      if before != [] && |before[|before| - 1]| + |Sep| + |para| <= maxChars {
        ExtendLastGroup(front, para, maxChars, overlap, before, gs);
      } else {
        OpenNewGroup(front, para, maxChars, overlap, before, gs);
      }
    }
  }

  lemma ExtendLastGroup(front: seq<string>, para: string, maxChars: int, overlap: nat, before: seq<string>,
                        gs: seq<seq<string>>)
    requires |before| > 0 && IsPacking(front, maxChars, overlap, before, gs)
    requires |before[|before| - 1]| + |Sep| + |para| <= maxChars
    ensures exists groups :: IsPacking(front + [para], maxChars, overlap, Add(before, para, maxChars, overlap), groups)
  {
    var n := |before| - 1;
    var after := Add(before, para, maxChars, overlap);
    var gs' := gs[..n] + [gs[n] + [para]];
    forall k: nat | k < n + 1
      ensures GroupFits(maxChars, overlap, after, gs', k)
    {
      assert GroupFits(maxChars, overlap, before, gs, k);
      if k == n {
        JoinLast(gs[n], para);
        Assoc(Opening(before, n, overlap), Join(gs[n], Sep), Sep + para);
      } else {
        assert k + 1 == n ==> gs'[n][0] == gs[n][0] by {
          assert GroupFits(maxChars, overlap, before, gs, n);
        }
        GroupKept(maxChars, overlap, before, gs, after, gs', k);
      }
    }
    FlattenLast(gs, para, n);
    assert IsPacking(front + [para], maxChars, overlap, after, gs');
  }

  lemma GroupKept(maxChars: int, overlap: nat, before: seq<string>, gs: seq<seq<string>>, after: seq<string>,
                  gs': seq<seq<string>>, k: nat)
    requires k < |before| == |gs| && k < |after| == |gs'| && GroupFits(maxChars, overlap, before, gs, k)
    requires after[k] == before[k] && gs'[k] == gs[k] && (k > 0 ==> after[k - 1] == before[k - 1])
    requires k + 1 < |gs'| && gs'[k + 1] != [] ==> |before[k]| + |Sep| + |gs'[k + 1][0]| > maxChars
    ensures GroupFits(maxChars, overlap, after, gs', k)
  {
  }

  lemma JoinLast(group: seq<string>, para: string)
    requires group != []
    ensures Join(group + [para], Sep) == Join(group, Sep) + (Sep + para)
  {
    assert (group + [para])[..|group|] == group;
    Assoc(Join(group, Sep), Sep, para);
  }

  lemma FlattenLast(gs: seq<seq<string>>, para: string, n: nat)
    requires |gs| == n + 1
    ensures Flatten(gs[..n] + [gs[n] + [para]]) == Flatten(gs) + [para]
  {
    assert (gs[..n] + [gs[n] + [para]])[..n] == gs[..n];
    Assoc(Flatten(gs[..n]), gs[n], [para]);
  }

  lemma OpenNewGroup(front: seq<string>, para: string, maxChars: int, overlap: nat, before: seq<string>,
                     gs: seq<seq<string>>)
    requires IsPacking(front, maxChars, overlap, before, gs)
    requires before == [] || |before[|before| - 1]| + |Sep| + |para| > maxChars
    ensures exists groups :: IsPacking(front + [para], maxChars, overlap, Add(before, para, maxChars, overlap), groups)
  {
    var n := |before|;
    var after := Add(before, para, maxChars, overlap);
    var gs' := gs + [[para]];
    forall k: nat | k < n + 1
      ensures GroupFits(maxChars, overlap, after, gs', k)
    {
      if k < n {
        assert GroupFits(maxChars, overlap, before, gs, k);
        GroupKept(maxChars, overlap, before, gs, after, gs', k);
      }
    }
    assert gs'[..n] == gs;
    assert IsPacking(front + [para], maxChars, overlap, after, gs');
  }

  function Max(a: int, b: int): int { if a < b then b else a }

  function Longest(ps: seq<string>): nat {
    if ps == [] then 0 else Max(Longest(ps[..|ps| - 1]), |ps[|ps| - 1]|)
  }

  predicate AllWithin(chunks: seq<string>, bound: int) {
    forall k | 0 <= k < |chunks| :: |chunks[k]| <= bound
  }

  lemma AllWithinMore(chunks: seq<string>, bound: int, more: int)
    requires AllWithin(chunks, bound) && bound <= more
    ensures AllWithin(chunks, more)
  {
  }

  lemma LongestOfMore(front: seq<string>, para: string)
    ensures Longest(front) <= Longest(front + [para]) && |para| <= Longest(front + [para])
  {
    assert (front + [para])[..|front|] == front;
  }

  /** A chunk exceeds the limit only by holding one long paragraph behind its overlap. */
  lemma {:induction false} PackBounded(ps: seq<string>, maxChars: int, overlap: nat)
    requires NonBlank(ps)
    ensures AllWithin(Pack(ps, maxChars, overlap), Max(maxChars, overlap + |Sep| + Longest(ps)))
  {
    if ps != [] {
      var front, para := ps[..|ps| - 1], ps[|ps| - 1];
      var bound := Max(maxChars, overlap + |Sep| + Longest(ps));
      assert ps == front + [para];
      PackBounded(front, maxChars, overlap);
      LongestOfMore(front, para);
      AllWithinMore(Pack(front, maxChars, overlap), Max(maxChars, overlap + |Sep| + Longest(front)), bound);
      AddBounded(Pack(front, maxChars, overlap), para, maxChars, overlap, bound);
      PackStep(front, para, maxChars, overlap);
    }
  }

  lemma AddBounded(chunks: seq<string>, para: string, maxChars: int, overlap: nat, bound: int)
    requires AllWithin(chunks, bound) && maxChars <= bound && overlap + |Sep| + |para| <= bound
    ensures AllWithin(Add(chunks, para, maxChars, overlap), bound)
  {
  }

  // ---------------------------------------------------------------- nothing visible is lost

  lemma {:induction false} InkConcat(a: string, b: string)
    ensures Ink(a + b) == Ink(a) + Ink(b)
  {
    if a == "" {
      assert a + b == b;
    } else {
      assert (a + b)[1..] == a[1..] + b;
      InkConcat(a[1..], b);
      Assoc(InkOf(a[0]), Ink(a[1..]), Ink(b));
    }
  }

  lemma InkOfSpace(s: string)
    requires AllSpace(s)
    ensures Ink(s) == ""
  {
  }

  lemma InkOfStrip(s: string)
    ensures Ink(Strip(s)) == Ink(s)
  {
    var left, right := StripSplits(s);
    InkConcat(left, Strip(s) + right);
    InkConcat(Strip(s), right);
    InkOfSpace(left);
    InkOfSpace(right);
  }

  lemma {:induction false} InkOfParts(parts: seq<string>)
    ensures Ink(Join(KeepNonBlank(parts), Sep)) == Ink(Join(parts, Sep))
  {
    if parts != [] {
      var rest := parts[1..];
      InkOfParts(rest);
      InkOfStrip(parts[0]);
      InkJoin([parts[0]], rest);
      assert parts == [parts[0]] + rest;
      var kept := if Strip(parts[0]) == "" then [] else [Strip(parts[0])];
      InkJoin(kept, KeepNonBlank(rest));
      assert Ink(Join(kept, Sep)) == Ink(Join([parts[0]], Sep));
    }
  }

  lemma InkJoin(a: seq<string>, b: seq<string>)
    ensures Ink(Join(a + b, Sep)) == Ink(Join(a, Sep)) + Ink(Join(b, Sep))
  {
    if a == [] {
      assert a + b == b;
    } else if b == [] {
      assert a + b == a;
    } else {
      JoinAppend(a, b, Sep);
      InkConcat(Join(a, Sep) + Sep, Join(b, Sep));
      InkConcat(Join(a, Sep), Sep);
      InkOfSpace(Sep);
    }
  }

  lemma {:induction false} JoinOfSplit(text: string)
    ensures Join(Split(text), Sep) == text
    decreases |text|
  {
    match Find(text, Sep, 0)
    case None =>
    case Some(i) =>
      JoinOfSplit(text[i + 2..]);
      JoinAppend([text[..i]], Split(text[i + 2..]), Sep);
      Cut(text, i, i + 2);
  }

  /** Undoing the overlaps of a text's chunks gives back every visible character, in order. */
  lemma ChunksKeepTheInk(text: string, maxChars: int, overlap: nat)
    ensures Ink(Rejoin(Pack(Paragraphs(text), maxChars, overlap), overlap)) == Ink(text)
  {
    assert NonBlank(Paragraphs(text));
    PackLossless(Paragraphs(text), maxChars, overlap);
    InkOfParts(Split(text));
    JoinOfSplit(text);
  }

  // ---------------------------------------------------------------- what a paragraph is

  /** A paragraph is not blank, has no white space around it and no blank line in it. */
  ghost predicate IsParagraph(p: string) {
    p != "" && Stripped(p) && !Contains(p, Sep)
  }

  lemma OccursInside(s: string, left: string, mid: string, right: string, needle: string, i: int)
    requires s == left + (mid + right)
    ensures OccursAt(mid, needle, i) ==> OccursAt(s, needle, |left| + i)
  {
    if OccursAt(mid, needle, i) {
      assert s[|left| + i..|left| + i + |needle|] == mid[i..i + |needle|];
    }
  }

  lemma SubstringHasNone(s: string, left: string, mid: string, right: string, needle: string)
    requires s == left + (mid + right) && !Contains(s, needle)
    ensures !Contains(mid, needle)
  {
    forall i
      ensures !OccursAt(mid, needle, i)
    {
      OccursInside(s, left, mid, right, needle, i);
    }
  }

  lemma {:induction false} SplitAtBlankLines(text: string)
    ensures forall k | 0 <= k < |Split(text)| :: !Contains(Split(text)[k], Sep)
    decreases |text|
  {
    match Find(text, Sep, 0)
    case None =>
      assert !Contains(text, Sep);
    case Some(n) =>
      SplitAtBlankLines(text[n + 2..]);
      assert text == "" + (text[..n] + text[n..]);
      forall i
        ensures !OccursAt(text[..n], Sep, i)
      {
        OccursInside(text, "", text[..n], text[n..], Sep, i);
      }
  }

  lemma {:induction false} KeptAreParagraphs(parts: seq<string>)
    requires forall k | 0 <= k < |parts| :: !Contains(parts[k], Sep)
    ensures forall k | 0 <= k < |KeepNonBlank(parts)| :: IsParagraph(KeepNonBlank(parts)[k])
  {
    if parts != [] {
      KeptAreParagraphs(parts[1..]);
      var left, right := StripSplits(parts[0]);
      SubstringHasNone(parts[0], left, Strip(parts[0]), right, Sep);
    }
  }

  /** What is packed are the paragraphs of the text: stripped, not blank, cut at every blank line. */
  lemma ParagraphsExact(text: string)
    ensures forall k | 0 <= k < |Paragraphs(text)| :: IsParagraph(Paragraphs(text)[k])
    ensures Ink(Join(Paragraphs(text), Sep)) == Ink(text)
  {
    SplitAtBlankLines(text);
    KeptAreParagraphs(Split(text));
    InkOfParts(Split(text));
    JoinOfSplit(text);
  }
}
