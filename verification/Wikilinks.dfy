/** Extraction of wikilink targets from a body, as the mirror uses it. */
module Wikilinks {
  import opened Strings
  import opened Links

  /** The captured groups of the successive matches, left to right. */
  function Captures(text: string): seq<string>
    decreases |text|
  {
    if text == "" then []
    else
      match MatchHere(text)
      case None => Captures(text[1..])
      case Some(m) => [m.target] + Captures(text[m.end..])
  }

  function Folds(casefold: string -> string, names: seq<string>): set<string> {
    set k | 0 <= k < |names| :: casefold(names[k])
  }

  /** Blank names dropped, of names that differ in case only the first spelling kept. */
  function FirstSpellings(casefold: string -> string, names: seq<string>): seq<string> {
    if names == [] then []
    else
      var before, name := FirstSpellings(casefold, names[..|names| - 1]), Strip(names[|names| - 1]);
      if name == "" || casefold(name) in Folds(casefold, before) then before else before + [name]
  }

  function Targets(casefold: string -> string, text: string): seq<string> {
    FirstSpellings(casefold, Captures(text))
  }

  method ExtractTargets(casefold: string -> string, text: string) returns (targets: seq<string>)
    ensures targets == Targets(casefold, text)
  {
    var names := Captures(text);
    var seen := {};
    targets := [];
    for i := 0 to |names|
      invariant targets == FirstSpellings(casefold, names[..i]) && seen == Folds(casefold, targets)
    {
      assert names[..i + 1][..i] == names[..i];
      var name := Strip(names[i]);
      if name != "" && casefold(name) !in seen {
        FoldsMore(casefold, targets, name);
        seen := seen + {casefold(name)};
        targets := targets + [name];
      }
    }
    assert names[..|names|] == names;
  }

  lemma FoldsMore(casefold: string -> string, names: seq<string>, name: string)
    ensures Folds(casefold, names + [name]) == Folds(casefold, names) + {casefold(name)}
  {
    var all := names + [name];
    assert forall k | 0 <= k < |names| :: all[k] == names[k];
    assert all[|names|] == name;
  }

  /** A match never starts inside another one. */
  lemma MatchesDoNotOverlap(text: string, i: nat)
    requires MatchHere(text).Some? && 0 < i <= |text| && MatchHere(text[i..]).Some?
    ensures MatchHere(text).value.end <= i
  {
    var end := MatchHere(text).value.end;
    TailOpensNothing(text);
    var tail := text[..end][2..];
    forall k | 2 <= k < end
      ensures text[k] != '['
    {
      assert tail[k - 2] == text[k] && text[k] in tail;
    }
    assert text[i..][0] == text[i] && text[i..][1] == text[i + 1];
  }

  /** How far the scan moves on. */
  function ScanStep(text: string): (step: nat)
    requires text != ""
    ensures 0 < step <= |text|
  {
    if MatchHere(text).Some? then MatchHere(text).value.end else 1
  }

  lemma ScanStopsBefore(text: string, i: nat)
    requires 0 < i <= |text| && MatchHere(text[i..]).Some?
    ensures ScanStep(text) <= i && text[ScanStep(text)..][i - ScanStep(text)..] == text[i..]
  {
    if MatchHere(text).Some? {
      MatchesDoNotOverlap(text, i);
    }
  }

  /** The scan comes by every link that can be read at any offset. */
  lemma {:induction false} LinkIsCaptured(text: string, slug: string, i: nat)
    requires i <= |text| && MatchHere(text[i..]).Some? && MatchHere(text[i..]).value.target == slug
    ensures slug in Captures(text)
    decreases |text|
  {
    if i == 0 {
      assert text[0..] == text;
    } else {
      ScanStopsBefore(text, i);
      LinkIsCaptured(text[ScanStep(text)..], slug, i - ScanStep(text));
    }
  }

  // ---------------------------------------------------------------- which spellings are kept

  predicate FoldsLike(casefold: string -> string, a: string, b: string) {
    Strip(a) != "" && casefold(Strip(a)) == casefold(Strip(b))
  }

  /** Name `k` is not blank and no earlier name folds like it. */
  predicate IsFirst(casefold: string -> string, names: seq<string>, k: nat) {
    k < |names| && Strip(names[k]) != "" && forall j | 0 <= j < k :: !FoldsLike(casefold, names[j], names[k])
  }

  ghost predicate FoldAmong(casefold: string -> string, names: seq<string>, fold: string) {
    exists j: nat :: j < |names| && Strip(names[j]) != "" && casefold(Strip(names[j])) == fold
  }

  /** The folds of what is kept are those of all names that are not blank. */
  lemma {:induction false} FoldsExact(casefold: string -> string, names: seq<string>, fold: string)
    ensures fold in Folds(casefold, FirstSpellings(casefold, names)) <==> FoldAmong(casefold, names, fold)
  {
    if names != [] {
      var front := names[..|names| - 1];
      FoldsExact(casefold, front, fold);
      FoldsMore(casefold, FirstSpellings(casefold, front), Strip(names[|front|]));
      FoldAmongMore(casefold, names, fold);
    }
  }

  lemma FoldAmongMore(casefold: string -> string, names: seq<string>, fold: string)
    requires names != []
    ensures var front, name := names[..|names| - 1], Strip(names[|names| - 1]);
      FoldAmong(casefold, names, fold) <==> FoldAmong(casefold, front, fold) || (name != "" && casefold(name) == fold)
  {
    var front := names[..|names| - 1];
    if j: nat :| j < |front| && Strip(front[j]) != "" && casefold(Strip(front[j])) == fold {
      assert names[j] == front[j];
    }
    if j: nat :| j < |names| && Strip(names[j]) != "" && casefold(Strip(names[j])) == fold {
      assert j < |front| ==> front[j] == names[j];
    }
  }

  predicate IsFirstAs(casefold: string -> string, names: seq<string>, k: nat, x: string) {
    IsFirst(casefold, names, k) && Strip(names[k]) == x
  }

  ghost predicate KeptAs(casefold: string -> string, names: seq<string>, x: string) {
    exists k: nat :: IsFirstAs(casefold, names, k, x)
  }

  lemma FirstInFront(casefold: string -> string, names: seq<string>, k: nat, x: string)
    requires k < |names| - 1
    ensures IsFirstAs(casefold, names[..|names| - 1], k, x) <==> IsFirstAs(casefold, names, k, x)
  {
    assert forall j | 0 <= j <= k :: names[..|names| - 1][j] == names[j];
  }

  lemma KeptAsMore(casefold: string -> string, names: seq<string>, x: string)
    requires names != []
    ensures KeptAs(casefold, names, x) <==>
      KeptAs(casefold, names[..|names| - 1], x) || IsFirstAs(casefold, names, |names| - 1, x)
  {
    var front := names[..|names| - 1];
    forall k: nat | k < |names| - 1
      ensures IsFirstAs(casefold, front, k, x) <==> IsFirstAs(casefold, names, k, x)
    {
      FirstInFront(casefold, names, k, x);
    }
  }

  lemma LastIsFirstIff(casefold: string -> string, names: seq<string>)
    requires names != []
    ensures var front, name := names[..|names| - 1], Strip(names[|names| - 1]);
      IsFirst(casefold, names, |names| - 1) <==> name != "" && !FoldAmong(casefold, front, casefold(name))
  {
    var front, name := names[..|names| - 1], Strip(names[|names| - 1]);
    if j: nat :| j < |front| && Strip(front[j]) != "" && casefold(Strip(front[j])) == casefold(name) {
      assert FoldsLike(casefold, names[j], names[|names| - 1]);
    }
    forall j | 0 <= j < |front|
      ensures FoldsLike(casefold, names[j], names[|names| - 1]) ==> FoldAmong(casefold, front, casefold(name))
    {
      assert front[j] == names[j];
    }
  }

  /** Kept is exactly what is a first spelling. */
  lemma {:induction false} KeptExact(casefold: string -> string, names: seq<string>, x: string)
    ensures x in FirstSpellings(casefold, names) <==> KeptAs(casefold, names, x)
  {
    if names != [] {
      var front, name := names[..|names| - 1], Strip(names[|names| - 1]);
      KeptExact(casefold, front, x);
      KeptAsMore(casefold, names, x);
      LastIsFirstIff(casefold, names);
      FoldsExact(casefold, front, casefold(name));
    }
  }

  /** Some first spelling among the links of the text slugifies to the slug. */
  ghost predicate LinksTo(casefold: string -> string, slugify: string -> string, text: string, slug: string) {
    exists k: nat :: IsFirst(casefold, Captures(text), k) && slugify(Strip(Captures(text)[k])) == slug
  }

  ghost predicate IsTarget(casefold: string -> string, slugify: string -> string, text: string, slug: string) {
    exists j: nat :: j < |Targets(casefold, text)| && slugify(Targets(casefold, text)[j]) == slug
  }

  /** A text has a target with that slug exactly if the first spelling of one of its links has it. */
  lemma TargetIff(casefold: string -> string, slugify: string -> string, text: string, slug: string)
    ensures IsTarget(casefold, slugify, text, slug) <==> LinksTo(casefold, slugify, text, slug)
  {
    var names, kept := Captures(text), Targets(casefold, text);
    if IsTarget(casefold, slugify, text, slug) {
      var j: nat :| j < |kept| && slugify(kept[j]) == slug;
      var k := FirstOfKept(casefold, names, kept[j]);
    }
    if LinksTo(casefold, slugify, text, slug) {
      var k: nat :| IsFirst(casefold, names, k) && slugify(Strip(names[k])) == slug;
      var j := KeptOfFirst(casefold, names, k);
    }
  }

  lemma FirstOfKept(casefold: string -> string, names: seq<string>, x: string) returns (k: nat)
    requires x in FirstSpellings(casefold, names)
    ensures IsFirst(casefold, names, k) && Strip(names[k]) == x
  {
    KeptExact(casefold, names, x);
    k :| IsFirstAs(casefold, names, k, x);
  }

  lemma KeptOfFirst(casefold: string -> string, names: seq<string>, k: nat) returns (j: nat)
    requires IsFirst(casefold, names, k)
    ensures j < |FirstSpellings(casefold, names)| && FirstSpellings(casefold, names)[j] == Strip(names[k])
  {
    assert IsFirstAs(casefold, names, k, Strip(names[k]));
    KeptExact(casefold, names, Strip(names[k]));
    var kept := FirstSpellings(casefold, names);
    j :| 0 <= j < |kept| && kept[j] == Strip(names[k]);
  }

  /** Among the links of this text nothing but spellings of the slug folds like it. */
  predicate FoldSafe(casefold: string -> string, slugify: string -> string, text: string, slug: string) {
    forall k | 0 <= k < |Captures(text)| ::
      FoldsLike(casefold, Captures(text)[k], slug) ==> slugify(Strip(Captures(text)[k])) == slug
  }

  /** The first of the names that fold like name `k`. */
  lemma {:induction false} FirstOfFold(casefold: string -> string, names: seq<string>, k: nat) returns (j: nat)
    requires k < |names| && Strip(names[k]) != ""
    ensures IsFirst(casefold, names, j) && FoldsLike(casefold, names[j], names[k])
    decreases k
  {
    if IsFirst(casefold, names, k) {
      j := k;
    } else {
      var i :| 0 <= i < k && FoldsLike(casefold, names[i], names[k]);
      j := FirstOfFold(casefold, names, i);
    }
  }

  /** A link that can be read in a text is a target, if nothing else in the text folds like it. */
  lemma ReadLinkIsTarget(casefold: string -> string, slugify: string -> string, text: string, slug: string)
    requires LinkableSlug(slug) && HasLink(text, slug) && FoldSafe(casefold, slugify, text, slug)
    ensures LinksTo(casefold, slugify, text, slug)
  {
    var i: nat :| i <= |text| && MatchHere(text[i..]) == Some(Match(slug, None, |slug| + 4));
    LinkIsCaptured(text, slug, i);
    StripOfStripped(slug);
    var names := Captures(text);
    var k :| 0 <= k < |names| && names[k] == slug;
    var j := FirstOfFold(casefold, names, k);
  }

  /** Of two links in a text whose slugs fold alike only the first is a target: the second slug is lost. */
  lemma FoldedTwinIsLost(casefold: string -> string, slugify: string -> string, a: string, b: string)
    requires LinkableSlug(a) && LinkableSlug(b) && casefold(a) == casefold(b) && slugify(a) != b
    ensures var text := "[[" + a + "]]" + ("[[" + b + "]]" + "");
      HasLink(text, b) && Targets(casefold, text) == [a] && !IsTarget(casefold, slugify, text, b)
  {
    var second := "[[" + b + "]]" + "";
    var text := "[[" + a + "]]" + second;
    LinkIsRead(a, second);
    LinkIsRead(b, "");
    assert text[|a| + 4..] == second;
    assert Captures("") == [] && second[|b| + 4..] == "";
    assert Captures(second) == [b] + [] == [b];
    assert Captures(text) == [a] + [b] == [a, b];
    FirstOfTwo(casefold, a, b);
  }

  lemma FirstOfTwo(casefold: string -> string, a: string, b: string)
    requires a != "" && b != "" && Stripped(a) && Stripped(b) && casefold(a) == casefold(b)
    ensures FirstSpellings(casefold, [a, b]) == [a]
  {
    StripOfStripped(a);
    StripOfStripped(b);
    assert [a, b][..1] == [a] && [a][..0] == [];
    assert FirstSpellings(casefold, []) == [] && FirstSpellings(casefold, [a]) == [] + [a] == [a];
    assert casefold([a][0]) in Folds(casefold, [a]);
  }

  // ---------------------------------------------------------------- the links of a stored page

  lemma CapturesSkip(s: string)
    requires s != "" && s[0] != '['
    ensures Captures(s) == Captures(s[1..])
  {
  }

  lemma {:induction false} CapturesPlain(w: string, rest: string)
    requires '[' !in w
    ensures Captures(w + rest) == Captures(rest)
  {
    if w == "" {
      assert w + rest == rest;
    } else {
      assert w[0] in w && '[' !in w[1..];
      TailOfSum(w, rest, 1);
      CapturesSkip(w + rest);
      CapturesPlain(w[1..], rest);
    }
  }

  lemma TailOfSum(a: string, b: string, k: nat)
    requires k <= |a|
    ensures (a + b)[k..] == a[k..] + b
  {
  }

  /** Where the text behind does not change the match, the scan goes on from the same place. */
  lemma CapturesMore(a: string, more: string)
    requires a != "" && MatchHere(a + more) == MatchHere(a)
    ensures Captures(a + more) == HeadCapture(a) + Captures(a[ScanStep(a)..] + more)
  {
    TailOfSum(a, more, ScanStep(a));
    CapturesStep(a + more);
  }

  /** Links in text that is put together at a stretch without brackets are those of its parts. */
  lemma {:induction false} CapturesAcross(a: string, w: string, rest: string)
    requires w != "" && NoBrackets(w) && (rest == "" || rest[0] == '[')
    ensures Captures(a + (w + rest)) == Captures(a) + Captures(rest)
    decreases |a|
  {
    if a == "" {
      assert a + (w + rest) == w + rest && '[' !in w;
      CapturesPlain(w, rest);
    } else {
      MatchAcross(a, w, rest);
      CapturesMore(a, w + rest);
      CapturesAcross(a[ScanStep(a)..], w, rest);
      CapturesStep(a);
      Assoc(HeadCapture(a), Captures(a[ScanStep(a)..]), Captures(rest));
    }
  }

  lemma MatchAcross(a: string, w: string, rest: string)
    requires a != "" && w != "" && NoBrackets(w) && (rest == "" || rest[0] == '[')
    ensures MatchHere(a + (w + rest)) == MatchHere(a)
  {
    NoMatchAcross(a, w, rest);
    MatchExtends(a, w + rest);
    MatchInPrefix(a, w + rest);
  }

  function HeadCapture(a: string): seq<string> {
    if MatchHere(a).Some? then [MatchHere(a).value.target] else []
  }

  lemma CapturesStep(a: string)
    requires a != ""
    ensures Captures(a) == HeadCapture(a) + Captures(a[ScanStep(a)..])
  {
  }

  lemma CapturesOfStrip(s: string)
    ensures Captures(Strip(s)) == Captures(s)
  {
    var before, after := StripSplits(s);
    SpaceHasNoBrackets(before);
    SpaceHasNoBrackets(after);
    CapturesPlain(before, Strip(s) + after);
    if after == "" {
      assert Strip(s) + after == Strip(s);
    } else {
      CapturesAcross(Strip(s), after, "");
      assert Strip(s) + (after + "") == Strip(s) + after;
      assert Captures("") == [];
    }
  }

  lemma CapturesOfLine(a: string, w: string, slug: string)
    requires w != "" && NoBrackets(w) && LinkableSlug(slug)
    ensures Captures(a + (w + ("[[" + slug + "]]"))) == Captures(a) + [slug]
  {
    var link := "[[" + slug + "]]";
    CapturesAcross(a, w, link);
    LinkIsRead(slug, "");
    assert link + "" == link && link[|slug| + 4..] == "" && Captures("") == [];
  }

  lemma LinesMore(front: seq<string>, l: string)
    requires front != []
    ensures Join(LinkLines(front + [l]), "\n") == Join(LinkLines(front), "\n") + ("\n- " + ("[[" + l + "]]"))
  {
    var links, lines := front + [l], Join(LinkLines(front), "\n");
    assert LinkLines(links)[..|front|] == LinkLines(front);
    assert LinkLine(l) == "- " + ("[[" + l + "]]");
    assert lines + "\n" + LinkLine(l) == lines + ("\n- " + ("[[" + l + "]]"));
  }

  lemma OneLine(a: string, l: string)
    requires LinkableSlug(l)
    ensures Captures(a + Join(LinkLines([l]), "\n")) == Captures(a) + [l]
  {
    CapturesOfLine(a, "- ", l);
    assert LinkLines([l]) == [LinkLine(l)] && LinkLine(l) == "- " + ("[[" + l + "]]");
  }

  lemma NextLine(a: string, front: seq<string>, l: string)
    requires front != [] && LinkableSlug(l)
    ensures Captures(a + Join(LinkLines(front + [l]), "\n"))
      == Captures(a + Join(LinkLines(front), "\n")) + [l]
  {
    var lines := Join(LinkLines(front), "\n");
    CapturesOfLine(a + lines, "\n- ", l);
    LinesMore(front, l);
    Assoc(a, lines, "\n- " + ("[[" + l + "]]"));
  }

  lemma {:induction false} CapturesOfLines(a: string, links: seq<string>)
    requires links != [] && forall l | l in links :: LinkableSlug(l)
    ensures Captures(a + Join(LinkLines(links), "\n")) == Captures(a) + links
    decreases |links|
  {
    var front, l := links[..|links| - 1], links[|links| - 1];
    assert links == front + [l];
    if front == [] {
      OneLine(a, l);
    } else {
      CapturesOfLines(a, front);
      NextLine(a, front, l);
      Assoc(Captures(a), front, [l]);
    }
  }

  lemma CapturesBefore(text: string, w: string)
    requires w != "" && NoBrackets(w)
    ensures Captures(text + w) == Captures(text)
  {
    CapturesAcross(text, w, "");
    assert w + "" == w && Captures("") == [];
  }

  lemma CapturesOfSection(text: string, planned: seq<string>)
    requires planned != [] && forall l | l in planned :: LinkableSlug(l)
    ensures Captures(text + Section(planned)) == Captures(text) + planned
  {
    var lines := Join(LinkLines(planned), "\n");
    var head := text + RelatedHeading;
    CapturesBefore(text, RelatedHeading);
    CapturesOfLines(head, planned);
    CapturesBefore(head + lines, "\n");
    Assoc(text, RelatedHeading, lines);
    Assoc(text, RelatedHeading + lines, "\n");
  }

  /** The links of a stored page are those of its prose and then the planned ones, each of these once and
      in their order. */
  lemma StoredLinksExact(body: string, links: seq<string>)
    requires forall l | l in links :: LinkableSlug(l)
    ensures Captures(Strip(WithRelated(body, links))) == Captures(body) + Deduped(links)
  {
    CapturesOfStrip(WithRelated(body, links));
    CapturesOfStrip(body);
    WithRelatedIs(body, links);
    if Deduped(links) == [] {
      assert Strip(body) + "" == Strip(body);
    } else {
      CapturesOfSection(Strip(body), Deduped(links));
    }
  }

  /** Each of `at` is the position of the first spelling kept at the same place. */
  predicate AreFirstAt(casefold: string -> string, names: seq<string>, kept: seq<string>, at: seq<nat>) {
    |at| == |kept| && forall k | 0 <= k < |at| :: IsFirstAs(casefold, names, at[k], kept[k])
  }

  lemma FirstsInFront(casefold: string -> string, names: seq<string>, kept: seq<string>, at: seq<nat>)
    requires names != [] && AreFirstAt(casefold, names[..|names| - 1], kept, at)
    ensures AreFirstAt(casefold, names, kept, at) && forall k | 0 <= k < |at| :: at[k] < |names| - 1
  {
    forall k | 0 <= k < |at|
      ensures IsFirstAs(casefold, names, at[k], kept[k])
    {
      FirstInFront(casefold, names, at[k], kept[k]);
    }
  }

  lemma LastIsKept(casefold: string -> string, names: seq<string>)
    requires names != []
    requires var front := FirstSpellings(casefold, names[..|names| - 1]);
      |FirstSpellings(casefold, names)| > |front|
    ensures var name := Strip(names[|names| - 1]);
      FirstSpellings(casefold, names) == FirstSpellings(casefold, names[..|names| - 1]) + [name]
      && IsFirstAs(casefold, names, |names| - 1, name)
  {
    LastIsFirstIff(casefold, names);
    FoldsExact(casefold, names[..|names| - 1], casefold(Strip(names[|names| - 1])));
  }

  predicate Increasing(at: seq<nat>) {
    forall j, k | 0 <= j < k < |at| :: at[j] < at[k]
  }

  lemma IncreasingMore(at: seq<nat>, n: nat)
    requires Increasing(at) && forall k | 0 <= k < |at| :: at[k] < n
    ensures Increasing(at + [n])
  {
  }

  lemma AreFirstMore(casefold: string -> string, names: seq<string>, kept: seq<string>, at: seq<nat>, n: nat,
      x: string)
    requires AreFirstAt(casefold, names, kept, at) && IsFirstAs(casefold, names, n, x)
    ensures AreFirstAt(casefold, names, kept + [x], at + [n])
  {
  }

  lemma LastIsAdded(casefold: string -> string, names: seq<string>, at: seq<nat>)
    requires names != [] && Increasing(at)
    requires var front := FirstSpellings(casefold, names[..|names| - 1]);
      AreFirstAt(casefold, names[..|names| - 1], front, at) && |FirstSpellings(casefold, names)| > |front|
    ensures AreFirstAt(casefold, names, FirstSpellings(casefold, names), at + [|names| - 1])
    ensures Increasing(at + [|names| - 1])
  {
    FirstsInFront(casefold, names, FirstSpellings(casefold, names[..|names| - 1]), at);
    LastIsKept(casefold, names);
    IncreasingMore(at, |names| - 1);
    var kept := FirstSpellings(casefold, names[..|names| - 1]);
    AreFirstMore(casefold, names, kept, at, |names| - 1, Strip(names[|names| - 1]));
  }

  lemma LastIsDropped(casefold: string -> string, names: seq<string>, at: seq<nat>)
    requires names != [] && Increasing(at)
    requires var front := FirstSpellings(casefold, names[..|names| - 1]);
      AreFirstAt(casefold, names[..|names| - 1], front, at) && |FirstSpellings(casefold, names)| <= |front|
    ensures AreFirstAt(casefold, names, FirstSpellings(casefold, names), at)
  {
    FirstsInFront(casefold, names, FirstSpellings(casefold, names[..|names| - 1]), at);
  }

  /** The kept names stand in the order of their first spellings. */
  lemma {:induction false} KeptInOrder(casefold: string -> string, names: seq<string>) returns (at: seq<nat>)
    ensures AreFirstAt(casefold, names, FirstSpellings(casefold, names), at) && Increasing(at)
  {
    if names == [] {
      at := [];
    } else {
      at := KeptInOrder(casefold, names[..|names| - 1]);
      if |FirstSpellings(casefold, names)| > |FirstSpellings(casefold, names[..|names| - 1])| {
        LastIsAdded(casefold, names, at);
        at := at + [|names| - 1];
      } else {
        LastIsDropped(casefold, names, at);
      }
    }
  }
}
