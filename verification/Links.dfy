/** Wikilinks in a page body: the pattern, the sanitizer that strips links leading nowhere, and the
    generated section that guarantees the planned ones. */
module Links {
  import opened Strings

  // ---------------------------------------------------------------- the pattern

  /** `[[ target ]]` or `[[ target | alias ]]`: the two groups and where the match ends. */
  datatype Match = Match(target: string, alias: Option<string>, end: nat)

  predicate IsBracket(c: char) {
    c == '[' || c == ']'
  }

  predicate NoBrackets(s: string) {
    forall i | 0 <= i < |s| :: !IsBracket(s[i])
  }

  function BracketFrom(s: string, i: nat): (j: nat)
    requires i <= |s|
    ensures i <= j <= |s| && NoBrackets(s[i..j]) && (j < |s| ==> IsBracket(s[j]))
    decreases |s| - i
  {
    if i < |s| && !IsBracket(s[i]) then
      var j := BracketFrom(s, i + 1);
      assert s[i..j] == [s[i]] + s[i + 1..j];
      j
    else i
  }

  function PipeFrom(s: string, i: nat): (j: nat)
    requires i <= |s|
    ensures i <= j <= |s| && '|' !in s[i..j] && (j < |s| ==> s[j] == '|')
    decreases |s| - i
  {
    if i < |s| && s[i] != '|' then
      var j := PipeFrom(s, i + 1);
      assert s[i..j] == [s[i]] + s[i + 1..j];
      j
    else i
  }

  /** What the first group captures: the text without the white space around it, the last blank if
      there is nothing else. */
  function Captured(text: string): string
    requires text != ""
  {
    if Strip(text) != "" then Strip(text) else text[|text| - 1..]
  }

  /** The match that starts where `s` starts. */
  function MatchHere(s: string): (m: Option<Match>)
    ensures m.Some? ==> 4 < m.value.end <= |s| && s[0] == '[' && s[1] == '['
  {
    if !OccursAt(s, "[[", 0) then None
    else
      var close := BracketFrom(s, 2);
      var pipe := PipeFrom(s[2..close], 0);
      if !OccursAt(s, "]]", close) || pipe == 0 then None
      else
        var inner := s[2..close];
        Some(Match(Captured(inner[..pipe]), if pipe < |inner| then Some(inner[pipe + 1..]) else None, close + 2))
  }

  // ---------------------------------------------------------------- the sanitizer

  function Valid(slugify: string -> string, slugs: set<string>, m: Match): bool {
    slugify(m.target) in slugs
  }

  function Shown(m: Match): string {
    Strip(if m.alias.Some? && m.alias.value != "" then m.alias.value else m.target)
  }

  /** Every leftmost match is kept if its slug is known and shown as plain text if not. */
  function Sanitize(slugify: string -> string, slugs: set<string>, body: string): string
    decreases |body|
  {
    if body == "" then ""
    else
      match MatchHere(body)
      case None => body[..1] + Sanitize(slugify, slugs, body[1..])
      case Some(m) =>
        (if Valid(slugify, slugs, m) then body[..m.end] else Shown(m)) + Sanitize(slugify, slugs, body[m.end..])
  }

  // ---------------------------------------------------------------- what is left after sanitizing

  /** Every match anywhere in the text has a known slug. */
  ghost predicate AllValid(slugify: string -> string, slugs: set<string>, s: string) {
    forall i: nat :: ValidAt(slugify, slugs, s, i)
  }

  predicate ValidAt(slugify: string -> string, slugs: set<string>, s: string, i: nat) {
    i <= |s| && MatchHere(s[i..]).Some? ==> Valid(slugify, slugs, MatchHere(s[i..]).value)
  }

  lemma AllValidMore(slugify: string -> string, slugs: set<string>, more: set<string>, s: string)
    requires AllValid(slugify, slugs, s) && slugs <= more
    ensures AllValid(slugify, more, s)
  {
    forall i: nat
      ensures ValidAt(slugify, more, s, i)
    {
      assert ValidAt(slugify, slugs, s, i);
    }
  }

  /** Every opening bracket of the body belongs to a wikilink. */
  predicate NoStrayOpen(body: string)
    decreases |body|
  {
    body == "" ||
    match MatchHere(body)
    case None => body[0] != '[' && NoStrayOpen(body[1..])
    case Some(m) => NoStrayOpen(body[m.end..])
  }

  lemma ShownHasNoBrackets(s: string)
    ensures MatchHere(s).Some? ==> NoBrackets(Shown(MatchHere(s).value))
  {
    if MatchHere(s).Some? {
      var inner := s[2..BracketFrom(s, 2)];
      var pipe := PipeFrom(inner, 0);
      CapturedWithin(inner[..pipe]);
      if pipe < |inner| {
        StripWithin(inner[pipe + 1..]);
      }
      StripWithin(Captured(inner[..pipe]));
    }
  }

  lemma StripWithin(s: string)
    requires NoBrackets(s)
    ensures NoBrackets(Strip(s))
  {
    var left, right := StripSplits(s);
    assert forall i | 0 <= i < |Strip(s)| :: Strip(s)[i] == s[|left| + i];
  }

  lemma CapturedWithin(s: string)
    requires NoBrackets(s) && s != ""
    ensures NoBrackets(Captured(s))
  {
    StripWithin(s);
  }

  /** A text that opens no bracket may stand before any other without making a link. */
  lemma PlainBefore(slugify: string -> string, slugs: set<string>, w: string, s: string)
    requires '[' !in w && AllValid(slugify, slugs, s)
    ensures AllValid(slugify, slugs, w + s)
  {
    var all := w + s;
    forall i: nat
      ensures ValidAt(slugify, slugs, all, i)
    {
      if i < |w| {
        assert all[i..][0] == w[i] && w[i] in w;
      } else if i <= |all| {
        assert all[i..] == s[i - |w|..];
        assert ValidAt(slugify, slugs, s, i - |w|);
      }
    }
  }

  lemma BracketFromIs(s: string, i: nat, j: nat)
    requires i <= j < |s| && NoBrackets(s[i..j]) && IsBracket(s[j])
    ensures BracketFrom(s, i) == j
    decreases j - i
  {
    if i < j {
      assert s[i..j][0] == s[i];
      assert s[i + 1..j] == s[i..j][1..];
      BracketFromIs(s, i + 1, j);
    }
  }

  /** What a match is does not depend on the text behind it. */
  lemma MatchIsLocal(s: string, rest: string)
    requires MatchHere(s).Some?
    ensures MatchHere(s[..MatchHere(s).value.end] + rest) == MatchHere(s)
  {
    var end := MatchHere(s).value.end;
    var close := end - 2;
    var t := s[..end] + rest;
    assert t[0..2] == s[0..2] && t[2..close] == s[2..close] && t[close..end] == s[close..end];
    assert s[close..close + 2] == "]]" && t[close] == s[close] == ']';
    BracketFromIs(t, 2, close);
  }

  /** A kept link in front of a clean text leaves it clean. */
  lemma LinkBefore(slugify: string -> string, slugs: set<string>, s: string, rest: string)
    requires MatchHere(s).Some? && Valid(slugify, slugs, MatchHere(s).value) && AllValid(slugify, slugs, rest)
    ensures AllValid(slugify, slugs, s[..MatchHere(s).value.end] + rest)
  {
    var link := s[..MatchHere(s).value.end];
    var all := link + rest;
    MatchIsLocal(s, rest);
    TailOpensNothing(s);
    PlainBefore(slugify, slugs, link[2..], rest);
    forall i: nat
      ensures ValidAt(slugify, slugs, all, i)
    {
      if i == 0 {
        assert all[0..] == all;
      } else if i == 1 {
        assert all[1..][1] == link[2] && link[2] in link[2..];
      } else if i <= |all| {
        assert all[i..] == (link[2..] + rest)[i - 2..];
        assert ValidAt(slugify, slugs, link[2..] + rest, i - 2);
      }
    }
  }

  lemma TailOpensNothing(s: string)
    requires MatchHere(s).Some?
    ensures '[' !in s[..MatchHere(s).value.end][2..]
  {
    var end := MatchHere(s).value.end;
    var close := BracketFrom(s, 2);
    assert s[close..close + 2] == "]]";
    forall i | 2 <= i < end
      ensures s[i] != '['
    {
      if i < close {
        assert s[2..close][i - 2] == s[i];
      } else {
        assert s[i] == s[close..close + 2][i - close];
      }
    }
  }

  // ---------------------------------------------------------------- exactly when sanitizing is complete

  /** No two stray opening brackets come together in front of what then reads as a link with an unknown
      slug. `open` says that a stray bracket stands right before. */
  predicate NoLinkMade(slugify: string -> string, slugs: set<string>, known: set<string>, body: string, open: bool)
    decreases |body|
  {
    body == "" ||
    match MatchHere(body)
    case None =>
      var stray := body[0] == '[';
      && (stray && open ==> ValidAt(slugify, known, "[[" + Sanitize(slugify, slugs, body[1..]), 0))
      && NoLinkMade(slugify, slugs, known, body[1..], stray)
    case Some(m) =>
      NoLinkMade(slugify, slugs, known, body[m.end..], open && !Valid(slugify, slugs, m) && Shown(m) == "")
  }

  function Behind(open: bool, s: string): string {
    if open then "[" + s else s
  }

  lemma BehindTail(slugify: string -> string, known: set<string>, open: bool, w: string, s: string)
    requires AllValid(slugify, known, Behind(open, w + s))
    ensures AllValid(slugify, known, s)
  {
    var all, step := Behind(open, w + s), if open then |w| + 1 else |w|;
    AllValidTail(slugify, known, all, step);
    assert all[step..] == s;
  }

  /** A text that starts with something other than an opening bracket takes no part in a link before it. */
  lemma PlainBetween(slugify: string -> string, known: set<string>, open: bool, w: string, s: string)
    requires w != "" && '[' !in w
    ensures AllValid(slugify, known, Behind(open, w + s)) <==> AllValid(slugify, known, s)
  {
    var all := Behind(open, w + s);
    if AllValid(slugify, known, all) {
      BehindTail(slugify, known, open, w, s);
    }
    if AllValid(slugify, known, s) {
      PlainBefore(slugify, known, w, s);
      if open {
        assert all[1] == w[0] && w[0] in w && all[1..] == w + s;
        CharBefore(slugify, known, all);
      }
    }
  }

  /** So does a kept link. */
  lemma LinkBetween(slugify: string -> string, slugs: set<string>, known: set<string>, open: bool, s: string,
                    rest: string)
    requires MatchHere(s).Some? && Valid(slugify, slugs, MatchHere(s).value) && slugs <= known
    ensures var link := s[..MatchHere(s).value.end];
      AllValid(slugify, known, Behind(open, link + rest)) <==> AllValid(slugify, known, rest)
  {
    var link := s[..MatchHere(s).value.end];
    if AllValid(slugify, known, Behind(open, link + rest)) {
      BehindTail(slugify, known, open, link, rest);
    }
    if AllValid(slugify, known, rest) {
      LinkBefore(slugify, known, s, rest);
      if open {
        BracketBefore(slugify, known, link + rest);
      }
    }
  }

  lemma BracketBefore(slugify: string -> string, known: set<string>, s: string)
    requires |s| > 1 && s[1] == '[' && AllValid(slugify, known, s)
    ensures AllValid(slugify, known, "[" + s)
  {
    var all := "[" + s;
    assert all[2] == '[' && all[1..] == s;
    assert BracketFrom(all, 2) == 2;
    ClosesWithBracket(all, 2);
    CharBefore(slugify, known, all);
  }

  lemma TwoOpen(slugify: string -> string, known: set<string>, s: string)
    ensures AllValid(slugify, known, "[[" + s)
      <==> ValidAt(slugify, known, "[[" + s, 0) && AllValid(slugify, known, "[" + s)
  {
    var all := "[[" + s;
    assert all[1..] == "[" + s;
    if AllValid(slugify, known, all) {
      AllValidTail(slugify, known, all, 1);
    }
    if ValidAt(slugify, known, all, 0) && AllValid(slugify, known, "[" + s) {
      forall i: nat
        ensures ValidAt(slugify, known, all, i)
      {
        if 0 < i <= |all| {
          assert ("[" + s)[i - 1..] == all[i..];
          assert ValidAt(slugify, known, "[" + s, i - 1);
        }
      }
    }
  }

  /** What a match at the start of the body comes to. */
  lemma MatchBetween(slugify: string -> string, slugs: set<string>, known: set<string>, body: string, rest: string,
                     open: bool)
    requires MatchHere(body).Some? && slugs <= known
    ensures var m := MatchHere(body).value;
      var kept := Valid(slugify, slugs, m);
      AllValid(slugify, known, Behind(open, (if kept then body[..m.end] else Shown(m)) + rest)) <==>
        AllValid(slugify, known, Behind(open && !kept && Shown(m) == "", rest))
  {
    var m := MatchHere(body).value;
    ShownHasNoBrackets(body);
    if Valid(slugify, slugs, m) {
      LinkBetween(slugify, slugs, known, open, body, rest);
    } else if Shown(m) != "" {
      PlainBetween(slugify, known, open, Shown(m), rest);
    } else {
      assert Shown(m) + rest == rest;
    }
  }

  /** What any other character there comes to. */
  lemma CharBetween(slugify: string -> string, known: set<string>, c: string, rest: string, open: bool)
    requires |c| == 1
    ensures AllValid(slugify, known, Behind(open, c + rest)) <==>
      (c[0] == '[' && open ==> ValidAt(slugify, known, "[[" + rest, 0))
      && AllValid(slugify, known, Behind(c[0] == '[', rest))
  {
    if c[0] == '[' {
      assert c == "[";
      StrayBetween(slugify, known, open, rest);
    } else {
      PlainBetween(slugify, known, open, c, rest);
    }
  }

  lemma {:induction false} CleanIff(slugify: string -> string, slugs: set<string>, known: set<string>, body: string,
                                    open: bool)
    requires slugs <= known
    ensures NoLinkMade(slugify, slugs, known, body, open)
      <==> AllValid(slugify, known, Behind(open, Sanitize(slugify, slugs, body)))
    decreases |body|
  {
    if body == "" {
      assert forall i: nat :: ValidAt(slugify, known, Behind(open, ""), i);
    } else if MatchHere(body).Some? {
      var m := MatchHere(body).value;
      CleanIff(slugify, slugs, known, body[m.end..], open && !Valid(slugify, slugs, m) && Shown(m) == "");
      MatchBetween(slugify, slugs, known, body, Sanitize(slugify, slugs, body[m.end..]), open);
    } else {
      CleanIff(slugify, slugs, known, body[1..], body[0] == '[');
      CharBetween(slugify, known, body[..1], Sanitize(slugify, slugs, body[1..]), open);
    }
  }

  lemma StrayBetween(slugify: string -> string, known: set<string>, open: bool, s: string)
    ensures AllValid(slugify, known, Behind(open, "[" + s)) <==>
      (open ==> ValidAt(slugify, known, "[[" + s, 0)) && AllValid(slugify, known, Behind(true, s))
  {
    if open {
      Assoc("[", "[", s);
      assert "[" + "[" == "[[";
      TwoOpen(slugify, known, s);
    }
  }

  /** The sanitizer leaves no link that leads nowhere exactly if no two stray brackets make one. */
  lemma SanitizedIsClean(slugify: string -> string, slugs: set<string>, known: set<string>, body: string)
    requires slugs <= known
    ensures AllValid(slugify, known, Sanitize(slugify, slugs, body)) <==> NoLinkMade(slugify, slugs, known, body, false)
  {
    CleanIff(slugify, slugs, known, body, false);
  }

  /** For instance if every opening bracket of the body belongs to a wikilink. */
  lemma {:induction false} NoStrayMakesNone(slugify: string -> string, slugs: set<string>, known: set<string>,
                                            body: string)
    requires NoStrayOpen(body)
    ensures NoLinkMade(slugify, slugs, known, body, false)
    decreases |body|
  {
    if body != "" {
      NoStrayMakesNone(slugify, slugs, known, body[(if MatchHere(body).Some? then MatchHere(body).value.end else 1)..]);
    }
  }

  /** With stray brackets a link can appear that was not there: stripping the inner link of
      `[[[[a]]]]` makes one of the outer brackets. */
  lemma NestedBracketsLeaveALink(slugify: string -> string, a: string)
    requires LinkableSlug(a)
    ensures var s := "[[" + ("[[" + a + "]]" + "]]");
      Sanitize(slugify, {}, s) == "[" + ("[" + (a + "]]")) && !AllValid(slugify, {}, Sanitize(slugify, {}, s))
  {
    var inner := "[[" + a + "]]" + "]]";
    assert inner[0] == '[' && inner[1] == '[';
    TwoBracketsFirst(slugify, inner);
    LinkIsShown(slugify, a, "]]");
    NothingToStrip(slugify, "]]");
    LinkIsInvalid(slugify, a);
  }

  lemma TwoBracketsFirst(slugify: string -> string, rest: string)
    requires |rest| > 1 && rest[0] == '[' && rest[1] == '['
    ensures Sanitize(slugify, {}, "[[" + rest) == "[" + ("[" + Sanitize(slugify, {}, rest))
  {
    var s := "[[" + rest;
    assert s[2] == '[' && s[3] == '[';
    OneBracketFirst(slugify, s);
    OneBracketFirst(slugify, s[1..]);
    assert s[1..][1..] == rest;
  }

  lemma OneBracketFirst(slugify: string -> string, s: string)
    requires |s| > 2 && s[0] == '[' && s[2] == '['
    ensures Sanitize(slugify, {}, s) == "[" + Sanitize(slugify, {}, s[1..])
  {
    assert BracketFrom(s, 2) == 2;
    ClosesWithBracket(s, 2);
    assert s[..1] == "[";
  }

  lemma ClosesWithBracket(s: string, i: nat)
    ensures OccursAt(s, "]]", i) ==> s[i] == ']'
  {
    if OccursAt(s, "]]", i) {
      assert s[i] == s[i..i + 2][0];
    }
  }

  lemma LinkIsShown(slugify: string -> string, a: string, rest: string)
    requires LinkableSlug(a)
    ensures Sanitize(slugify, {}, "[[" + a + "]]" + rest) == a + Sanitize(slugify, {}, rest)
  {
    var s := "[[" + a + "]]" + rest;
    LinkIsRead(a, rest);
    StripOfStripped(a);
    assert s[|a| + 4..] == rest;
  }

  lemma LinkIsInvalid(slugify: string -> string, a: string)
    requires LinkableSlug(a)
    ensures !AllValid(slugify, {}, "[" + ("[" + (a + "]]")))
  {
    var s := "[" + ("[" + (a + "]]"));
    LinkIsRead(a, "");
    assert s == "[[" + a + "]]" + "" && s[0..] == s;
    assert !ValidAt(slugify, {}, s, 0);
  }

  /** Two stray brackets can also meet around a link that is shown as nothing: `[[[ ]][a]]` becomes a link. */
  lemma StrayBracketsMeet(slugify: string -> string, blank: string, a: string)
    requires LinkableSlug(a) && blank != "" && AllSpace(blank)
    ensures var s := "[" + ("[[" + blank + "]]" + ("[" + (a + "]]")));
      Sanitize(slugify, {}, s) == "[" + ("[" + (a + "]]")) && !AllValid(slugify, {}, Sanitize(slugify, {}, s))
  {
    var last := "[" + (a + "]]");
    var link := "[[" + blank + "]]" + last;
    assert ("[" + link)[2] == '[' && ("[" + link)[1..] == link;
    OneBracketFirst(slugify, "[" + link);
    BlankLinkVanishes(slugify, blank, last);
    SingleBracketStays(slugify, a + "]]");
    LinkIsInvalid(slugify, a);
  }

  lemma BlankLinkVanishes(slugify: string -> string, blank: string, rest: string)
    requires blank != "" && AllSpace(blank)
    ensures Sanitize(slugify, {}, "[[" + blank + "]]" + rest) == Sanitize(slugify, {}, rest)
  {
    var s := "[[" + blank + "]]" + rest;
    SpaceHasNoBrackets(blank);
    PlainLinkMatches(blank, rest);
    BlankIsShownAsNothing(blank);
    assert s[|blank| + 4..] == rest && "" + Sanitize(slugify, {}, rest) == Sanitize(slugify, {}, rest);
  }

  lemma SingleBracketStays(slugify: string -> string, tail: string)
    requires tail != "" && '[' !in tail
    ensures Sanitize(slugify, {}, "[" + tail) == "[" + tail
  {
    var s := "[" + tail;
    assert tail[0] in tail && s[1] == tail[0] && s[1..] == tail && s[..1] == "[";
    NothingToStrip(slugify, tail);
  }

  lemma BlankIsShownAsNothing(blank: string)
    requires blank != "" && AllSpace(blank)
    ensures Shown(Match(Captured(blank), None, |blank| + 4)) == ""
  {
    StripOfSpace(blank);
    StripOfSpace(Captured(blank));
  }

  lemma StripOfSpace(s: string)
    requires AllSpace(s)
    ensures Strip(s) == ""
  {
    assert s == s + ("" + "");
    StripUnique(s, s, "", "");
  }

  lemma {:induction false} NothingToStrip(slugify: string -> string, s: string)
    requires '[' !in s
    ensures Sanitize(slugify, {}, s) == s
    decreases |s|
  {
    if s != "" {
      assert s[0] in s && s == s[..1] + s[1..];
      NothingToStrip(slugify, s[1..]);
    }
  }

  lemma AllValidTail(slugify: string -> string, slugs: set<string>, s: string, step: nat)
    requires AllValid(slugify, slugs, s) && step <= |s|
    ensures AllValid(slugify, slugs, s[step..])
  {
    var tail := s[step..];
    forall i: nat
      ensures ValidAt(slugify, slugs, tail, i)
    {
      assert ValidAt(slugify, slugs, s, step + i);
      assert i <= |tail| ==> tail[i..] == s[step + i..];
    }
  }

  /** A character that starts no match may stand before a clean text. */
  lemma CharBefore(slugify: string -> string, slugs: set<string>, s: string)
    requires s != "" && MatchHere(s).None? && AllValid(slugify, slugs, s[1..])
    ensures AllValid(slugify, slugs, s)
  {
    forall i: nat
      ensures ValidAt(slugify, slugs, s, i)
    {
      if i == 0 {
        assert s[0..] == s;
      } else if i <= |s| {
        assert s[1..][i - 1..] == s[i..];
        assert ValidAt(slugify, slugs, s[1..], i - 1);
      }
    }
  }

  lemma {:induction false} SanitizeNeverGrows(slugify: string -> string, slugs: set<string>, body: string)
    ensures |Sanitize(slugify, slugs, body)| <= |body|
    decreases |body|
  {
    if body != "" {
      SanitizeNeverGrows(slugify, slugs, body[(if MatchHere(body).Some? then MatchHere(body).value.end else 1)..]);
      ShownIsShort(body);
    }
  }

  lemma {:induction false} ValidMeansFixed(slugify: string -> string, slugs: set<string>, body: string)
    requires AllValid(slugify, slugs, body)
    ensures Sanitize(slugify, slugs, body) == body
    decreases |body|
  {
    if body != "" {
      var step := if MatchHere(body).Some? then MatchHere(body).value.end else 1;
      AllValidTail(slugify, slugs, body, step);
      ValidMeansFixed(slugify, slugs, body[step..]);
      assert body == body[..step] + body[step..];
      assert ValidAt(slugify, slugs, body, 0) && body[0..] == body;
    }
  }

  lemma {:induction false} FixedMeansValid(slugify: string -> string, slugs: set<string>, body: string)
    requires Sanitize(slugify, slugs, body) == body
    ensures AllValid(slugify, slugs, body)
    decreases |body|
  {
    if body != "" {
      var step := if MatchHere(body).Some? then MatchHere(body).value.end else 1;
      var rest := Sanitize(slugify, slugs, body[step..]);
      SanitizeNeverGrows(slugify, slugs, body[step..]);
      ShownIsShort(body);
      assert body == body[..step] + body[step..];
      assert |rest| == |body[step..]|;
      SameTail(body[..step], body[step..], rest);
      FixedMeansValid(slugify, slugs, body[step..]);
      if MatchHere(body).Some? {
        LinkBefore(slugify, slugs, body, body[step..]);
      } else {
        CharBefore(slugify, slugs, body);
      }
    } else {
      assert forall i: nat :: ValidAt(slugify, slugs, body, i);
    }
  }

  lemma SameTail(a: string, b: string, c: string)
    requires |b| == |c| && a + b == a + c
    ensures b == c
  {
    assert (a + b)[|a|..] == b && (a + c)[|a|..] == c;
  }

  /** The sanitizer leaves a text alone exactly when every wikilink in it, at whatever offset, has a
      known slug; a second run shows whether the first one was complete. */
  lemma SanitizeFixedIff(slugify: string -> string, slugs: set<string>, body: string)
    ensures Sanitize(slugify, slugs, body) == body <==> AllValid(slugify, slugs, body)
  {
    if Sanitize(slugify, slugs, body) == body {
      FixedMeansValid(slugify, slugs, body);
    }
    if AllValid(slugify, slugs, body) {
      ValidMeansFixed(slugify, slugs, body);
    }
  }

  lemma ShownIsShort(s: string)
    ensures MatchHere(s).Some? ==> |Shown(MatchHere(s).value)| < MatchHere(s).value.end
  {
    if MatchHere(s).Some? {
      var inner := s[2..BracketFrom(s, 2)];
      var pipe := PipeFrom(inner, 0);
      var _, _ := StripSplits(inner[..pipe]);
      var _, _ := StripSplits(Captured(inner[..pipe]));
      if pipe < |inner| {
        var _, _ := StripSplits(inner[pipe + 1..]);
      }
    }
  }

  // ---------------------------------------------------------------- the generated section

  const RelatedHeading := "\n\n## Related\n"

  function LinkLine(slug: string): string {
    "- [[" + slug + "]]"
  }

  function LinkLines(slugs: seq<string>): seq<string> {
    seq(|slugs|, i requires 0 <= i < |slugs| => LinkLine(slugs[i]))
  }

  function WithRelated(body: string, links: seq<string>): string {
    var slugs := Deduped(links);
    if slugs == [] then Strip(body) else Strip(body) + RelatedHeading + Join(LinkLines(slugs), "\n") + "\n"
  }

  /** A slug that can stand between the brackets of a link. */
  predicate LinkableSlug(slug: string) {
    slug != "" && Stripped(slug) && NoBrackets(slug) && '|' !in slug
  }

  /** Somewhere in the text the link to that slug can be read. */
  ghost predicate HasLink(text: string, slug: string) {
    exists i: nat :: i <= |text| && MatchHere(text[i..]) == Some(Match(slug, None, |slug| + 4))
  }

  lemma PipeFromIs(s: string, i: nat)
    requires i <= |s| && '|' !in s
    ensures PipeFrom(s, i) == |s|
    decreases |s| - i
  {
    if i < |s| {
      assert s[i] in s;
      PipeFromIs(s, i + 1);
    }
  }

  lemma PlainLinkMatches(inner: string, rest: string)
    requires inner != "" && NoBrackets(inner) && '|' !in inner
    ensures MatchHere("[[" + inner + "]]" + rest) == Some(Match(Captured(inner), None, |inner| + 4))
  {
    var s := "[[" + inner + "]]" + rest;
    var close := 2 + |inner|;
    assert s[0..2] == "[[" && s[2..close] == inner && s[close..close + 2] == "]]" && s[close] == ']';
    BracketFromIs(s, 2, close);
    PipeFromIs(inner, 0);
    assert inner[..|inner|] == inner;
  }

  lemma LinkIsRead(slug: string, rest: string)
    requires LinkableSlug(slug)
    ensures MatchHere("[[" + slug + "]]" + rest) == Some(Match(slug, None, |slug| + 4))
  {
    PlainLinkMatches(slug, rest);
    StripOfStripped(slug);
  }

  lemma LinkAt(left: string, slug: string, right: string)
    requires LinkableSlug(slug)
    ensures HasLink(left + ("[[" + slug + "]]") + right, slug)
  {
    var link := "[[" + slug + "]]";
    LinkIsRead(slug, right);
    assert (left + link + right)[|left|..] == link + right;
  }

  lemma {:induction false} JoinHolds(parts: seq<string>, sep: string, k: nat) returns (left: string, right: string)
    requires k < |parts|
    ensures Join(parts, sep) == left + parts[k] + right
  {
    if k == |parts| - 1 {
      left, right := if k == 0 then "" else Join(parts[..k], sep) + sep, "";
      assert left + parts[k] + right == left + parts[k];
    } else {
      var l, r := JoinHolds(parts[..|parts| - 1], sep, k);
      left, right := l, r + sep + parts[|parts| - 1];
      assert l + parts[k] + r + sep + parts[|parts| - 1] == l + parts[k] + (r + sep + parts[|parts| - 1]);
    }
  }

  /** White space cut off at the two ends holds no visible character. */
  lemma VisibleInside(s: string, before: string, mid: string, after: string, i: nat)
    requires s == before + (mid + after) && AllSpace(before) && AllSpace(after) && i < |s|
    ensures !IsSpace(s[i]) ==> |before| <= i < |before| + |mid|
  {
    assert s[i] == if i < |before| then before[i]
      else if i < |before| + |mid| then mid[i - |before|] else after[i - |before| - |mid|];
  }

  lemma MiddleOf(left: string, w: string, right: string, before: string, mid: string, after: string)
    requires left + w + right == before + (mid + after) && |before| <= |left| && |left| + |w| <= |before| + |mid|
    ensures mid == left[|before|..] + w + right[..|before| + |mid| - |left| - |w|]
  {
    var s := left + w + right;
    assert mid == s[|before|..|before| + |mid|];
  }

  /** Stripping a text keeps what stands in it between two visible characters. */
  lemma StripKeeps(left: string, w: string, right: string) returns (l: string, r: string)
    requires w != "" && !IsSpace(w[0]) && !IsSpace(w[|w| - 1])
    ensures Strip(left + w + right) == l + w + r
  {
    var s := left + w + right;
    var before, after := StripSplits(s);
    var mid := Strip(s);
    assert s[|left|] == w[0] && s[|left| + |w| - 1] == w[|w| - 1];
    VisibleInside(s, before, mid, after, |left|);
    VisibleInside(s, before, mid, after, |left| + |w| - 1);
    MiddleOf(left, w, right, before, mid, after);
    l, r := left[|before|..], right[..|before| + |mid| - |left| - |w|];
  }

  lemma LinkInSection(body: string, links: seq<string>, slug: string) returns (front: string, back: string)
    requires slug in links
    ensures WithRelated(body, links) == front + ("[[" + slug + "]]") + back
  {
    var slugs := Deduped(links);
    var k :| 0 <= k < |slugs| && slugs[k] == slug;
    var left, right := JoinHolds(LinkLines(slugs), "\n", k);
    var head := Strip(body) + RelatedHeading;
    var link := "[[" + slug + "]]";
    front, back := head + left + "- ", right + "\n";
    assert LinkLines(slugs)[k] == "- " + link;
    LinkShifted(head, left, link, right, "\n");
  }

  lemma LinkShifted(head: string, left: string, link: string, right: string, end: string)
    ensures head + (left + ("- " + link) + right) + end == (head + left + "- ") + link + (right + end)
  {
  }

  /** Every planned link can be read in the stored body, whatever prose stands before it. */
  lemma PlannedLinksAreRead(body: string, links: seq<string>, slug: string)
    requires slug in links && LinkableSlug(slug)
    ensures HasLink(Strip(WithRelated(body, links)), slug)
  {
    var front, back := LinkInSection(body, links, slug);
    var link := "[[" + slug + "]]";
    var l, r := StripKeeps(front, link, back);
    LinkAt(l, slug, r);
  }

  // ---------------------------------------------------------------- links in prose and section together

  /** A match stays one when text is added behind, and one that lies within a prefix is one there. */
  lemma MatchExtends(s: string, more: string)
    ensures MatchHere(s).Some? ==> MatchHere(s + more) == MatchHere(s)
  {
    if MatchHere(s).Some? {
      var end := MatchHere(s).value.end;
      MatchIsLocal(s, s[end..] + more);
      assert s[..end] + (s[end..] + more) == s + more;
    }
  }

  lemma MatchInPrefix(s: string, more: string)
    ensures MatchHere(s + more).Some? && MatchHere(s + more).value.end <= |s| ==> MatchHere(s) == MatchHere(s + more)
  {
    if MatchHere(s + more).Some? && MatchHere(s + more).value.end <= |s| {
      var end := MatchHere(s + more).value.end;
      MatchIsLocal(s + more, s[end..]);
      assert (s + more)[..end] + s[end..] == s;
    }
  }

  lemma PrefixValid(slugify: string -> string, slugs: set<string>, a: string, b: string)
    requires AllValid(slugify, slugs, a + b)
    ensures AllValid(slugify, slugs, a)
  {
    forall i: nat
      ensures ValidAt(slugify, slugs, a, i)
    {
      assert ValidAt(slugify, slugs, a + b, i);
      if i <= |a| {
        MatchExtends(a[i..], b);
        assert (a + b)[i..] == a[i..] + b;
      }
    }
  }

  /** The closing brackets of a match, the second of them and nothing but plain text before them. */
  lemma MatchCloses(s: string, k: nat)
    requires MatchHere(s).Some?
    ensures var close := MatchHere(s).value.end - 2;
      s[close] == ']' && s[close + 1] == ']' && (2 <= k < close ==> !IsBracket(s[k]))
  {
    var close := BracketFrom(s, 2);
    assert s[close..close + 2] == "]]";
    assert s[close] == s[close..close + 2][0] && s[close + 1] == s[close..close + 2][1];
    assert 2 <= k < close ==> s[2..close][k - 2] == s[k];
  }

  /** No match reaches over text without brackets that ends the text or stands before an opening bracket. */
  lemma NoMatchOver(s: string, from: nat, next: nat)
    requires 0 < from < next <= |s| && (next < |s| ==> s[next] == '[')
    requires forall k | from <= k < next :: !IsBracket(s[k])
    ensures MatchHere(s).Some? ==> MatchHere(s).value.end <= from
  {
    if MatchHere(s).Some? {
      MatchCloses(s, next);
      assert s[1] == '[';
    }
  }

  lemma NoMatchAcross(s: string, w: string, rest: string)
    requires s != "" && w != "" && NoBrackets(w) && (rest == "" || rest[0] == '[')
    ensures MatchHere(s + (w + rest)).Some? ==> MatchHere(s + (w + rest)).value.end <= |s|
  {
    var all := s + (w + rest);
    forall k | |s| <= k < |s| + |w|
      ensures !IsBracket(all[k])
    {
      assert all[k] == w[k - |s|];
    }
    NoMatchOver(all, |s|, |s| + |w|);
  }

  lemma ConcatValid(slugify: string -> string, slugs: set<string>, a: string, w: string, rest: string)
    requires AllValid(slugify, slugs, a) && AllValid(slugify, slugs, rest)
    requires w != "" && NoBrackets(w) && (rest == "" || rest[0] == '[')
    ensures AllValid(slugify, slugs, a + (w + rest))
  {
    var all := a + (w + rest);
    PlainBefore(slugify, slugs, w, rest);
    forall i: nat
      ensures ValidAt(slugify, slugs, all, i)
    {
      if i < |a| {
        assert all[i..] == a[i..] + (w + rest);
        NoMatchAcross(a[i..], w, rest);
        MatchInPrefix(a[i..], w + rest);
        assert ValidAt(slugify, slugs, a, i);
      } else if i <= |all| {
        assert all[i..] == (w + rest)[i - |a|..];
        assert ValidAt(slugify, slugs, w + rest, i - |a|);
      }
    }
  }

  lemma EmptyValid(slugify: string -> string, slugs: set<string>)
    ensures AllValid(slugify, slugs, "")
  {
    assert forall i: nat :: ValidAt(slugify, slugs, "", i);
  }

  lemma SpaceHasNoBrackets(s: string)
    requires AllSpace(s)
    ensures NoBrackets(s) && '[' !in s
  {
  }

  lemma StripValidIff(slugify: string -> string, slugs: set<string>, s: string)
    ensures AllValid(slugify, slugs, Strip(s)) <==> AllValid(slugify, slugs, s)
  {
    var before, after := StripSplits(s);
    var mid := Strip(s);
    SpaceHasNoBrackets(before);
    SpaceHasNoBrackets(after);
    if AllValid(slugify, slugs, s) {
      AllValidTail(slugify, slugs, s, |before|);
      assert s[|before|..] == mid + after;
      PrefixValid(slugify, slugs, mid, after);
    }
    if AllValid(slugify, slugs, mid) {
      EmptyValid(slugify, slugs);
      if after != "" {
        ConcatValid(slugify, slugs, mid, after, "");
      }
      assert mid + (after + "") == mid + after;
      assert after == "" ==> mid + after == mid;
      PlainBefore(slugify, slugs, before, mid + after);
    }
  }

  /** A planned link that reads back as itself and leads to a known slug. */
  predicate LeadsToKnown(slugify: string -> string, slugs: set<string>, l: string) {
    LinkableSlug(l) && slugify(l) == l && l in slugs
  }

  lemma LineAfter(slugify: string -> string, slugs: set<string>, a: string, w: string, l: string)
    requires AllValid(slugify, slugs, a) && w != "" && NoBrackets(w) && LeadsToKnown(slugify, slugs, l)
    ensures AllValid(slugify, slugs, a + (w + ("[[" + l + "]]")))
  {
    var link := "[[" + l + "]]";
    LinkIsRead(l, "");
    assert link + "" == link && link[..|l| + 4] == link;
    EmptyValid(slugify, slugs);
    LinkBefore(slugify, slugs, link, "");
    ConcatValid(slugify, slugs, a, w, link);
  }

  lemma {:induction false} LinesAfter(slugify: string -> string, slugs: set<string>, a: string, links: seq<string>)
    requires AllValid(slugify, slugs, a) && links != [] && forall l | l in links :: LeadsToKnown(slugify, slugs, l)
    ensures AllValid(slugify, slugs, a + Join(LinkLines(links), "\n"))
    decreases |links|
  {
    var front, l := links[..|links| - 1], links[|links| - 1];
    var link := "[[" + l + "]]";
    assert LinkLine(l) == "- " + link;
    if front == [] {
      LineAfter(slugify, slugs, a, "- ", l);
      assert LinkLines(links) == [LinkLine(l)];
    } else {
      LinesAfter(slugify, slugs, a, front);
      LineAfter(slugify, slugs, a + Join(LinkLines(front), "\n"), "\n- ", l);
      assert LinkLines(links)[..|links| - 1] == LinkLines(front);
      assert a + (Join(LinkLines(front), "\n") + "\n" + LinkLine(l))
        == a + Join(LinkLines(front), "\n") + ("\n- " + link);
    }
  }

  function Section(planned: seq<string>): string {
    RelatedHeading + Join(LinkLines(planned), "\n") + "\n"
  }

  lemma WithRelatedIs(body: string, links: seq<string>)
    ensures WithRelated(body, links) == Strip(body) + if Deduped(links) == [] then "" else Section(Deduped(links))
  {
    var planned := Deduped(links);
    if planned == [] {
      assert Strip(body) + "" == Strip(body);
    } else {
      var lines := Join(LinkLines(planned), "\n");
      assert Strip(body) + RelatedHeading + lines + "\n" == Strip(body) + (RelatedHeading + lines + "\n");
    }
  }

  /** Over the whole stored text, prose and section: when the planned links lead to known slugs, every link
      in it does exactly if the sanitized prose was clean. */
  lemma StoredIsCleanIff(slugify: string -> string, slugs: set<string>, body: string, links: seq<string>)
    requires forall l | l in links :: LeadsToKnown(slugify, slugs, l)
    ensures AllValid(slugify, slugs, Strip(WithRelated(body, links))) <==> AllValid(slugify, slugs, body)
  {
    StripValidIff(slugify, slugs, WithRelated(body, links));
    StripValidIff(slugify, slugs, body);
    WithRelatedIs(body, links);
    BeforeSectionIff(slugify, slugs, Strip(body), Deduped(links));
  }

  lemma BeforeSectionIff(slugify: string -> string, slugs: set<string>, text: string, planned: seq<string>)
    requires forall l | l in planned :: LeadsToKnown(slugify, slugs, l)
    ensures AllValid(slugify, slugs, text + if planned == [] then "" else Section(planned))
      <==> AllValid(slugify, slugs, text)
  {
    if planned == [] {
      assert text + "" == text;
    } else {
      if AllValid(slugify, slugs, text + Section(planned)) {
        PrefixValid(slugify, slugs, text, Section(planned));
      }
      if AllValid(slugify, slugs, text) {
        SectionAfter(slugify, slugs, text, planned);
      }
    }
  }

  lemma SectionAfter(slugify: string -> string, slugs: set<string>, text: string, planned: seq<string>)
    requires AllValid(slugify, slugs, text) && planned != []
    requires forall l | l in planned :: LeadsToKnown(slugify, slugs, l)
    ensures AllValid(slugify, slugs, text + Section(planned))
  {
    var lines := Join(LinkLines(planned), "\n");
    EmptyValid(slugify, slugs);
    ConcatValid(slugify, slugs, text, RelatedHeading, "");
    LinesAfter(slugify, slugs, text + (RelatedHeading + ""), planned);
    ConcatValid(slugify, slugs, text + (RelatedHeading + "") + lines, "\n", "");
    assert text + (RelatedHeading + "") + lines + ("\n" + "") == text + (RelatedHeading + lines + "\n");
  }

  // ---------------------------------------------------------------- links with an alias or white space

  lemma PipeFromAt(s: string, i: nat, k: nat)
    requires i <= k < |s| && s[k] == '|' && forall x | i <= x < k :: s[x] != '|'
    ensures PipeFrom(s, i) == k
    decreases k - i
  {
    if i < k {
      PipeFromAt(s, i + 1, k);
    }
  }

  lemma InnerOf(inner: string, rest: string)
    requires NoBrackets(inner)
    ensures var s, close := "[[" + inner + "]]" + rest, 2 + |inner|;
      OccursAt(s, "[[", 0) && OccursAt(s, "]]", close) && s[2..close] == inner && BracketFrom(s, 2) == close
  {
    var s, close := "[[" + inner + "]]" + rest, 2 + |inner|;
    assert s[0..2] == "[[" && s[2..close] == inner && s[close..close + 2] == "]]" && s[close] == ']';
    BracketFromIs(s, 2, close);
  }

  lemma MatchIs(s: string, inner: string, pipe: nat)
    requires OccursAt(s, "[[", 0) && OccursAt(s, "]]", 2 + |inner|) && s[2..2 + |inner|] == inner
    requires BracketFrom(s, 2) == 2 + |inner| && PipeFrom(inner, 0) == pipe && 0 < pipe < |inner|
    ensures MatchHere(s) == Some(Match(Captured(inner[..pipe]), Some(inner[pipe + 1..]), |inner| + 4))
  {
  }

  lemma PipeIs(name: string, tail: string)
    requires '|' !in name && tail != "" && tail[0] == '|'
    ensures PipeFrom(name + tail, 0) == |name|
  {
    assert forall x | 0 <= x < |name| :: (name + tail)[x] == name[x];
    PipeFromAt(name + tail, 0, |name|);
  }

  lemma PipedLinkMatches(name: string, tail: string, rest: string)
    requires NoBrackets(name) && NoBrackets(tail) && name != "" && '|' !in name && tail != "" && tail[0] == '|'
    ensures MatchHere("[[" + (name + tail) + "]]" + rest)
      == Some(Match(Captured(name), Some(tail[1..]), |name| + |tail| + 4))
  {
    NoBracketsSum(name, tail);
    InnerOf(name + tail, rest);
    PipeIs(name, tail);
    assert (name + tail)[..|name|] == name && (name + tail)[|name| + 1..] == tail[1..];
    MatchIs("[[" + (name + tail) + "]]" + rest, name + tail, |name|);
  }

  lemma NoBracketsSum(a: string, b: string)
    requires NoBrackets(a) && NoBrackets(b)
    ensures NoBrackets(a + b)
  {
  }

  lemma PipeTail(alias: string)
    requires NoBrackets(alias)
    ensures var tail := "|" + alias;
      NoBrackets(tail) && tail != "" && tail[0] == '|' && tail[1..] == alias && |tail| == 1 + |alias|
  {
    NoBracketsSum("|", alias);
  }

  predicate IsName(name: string, slug: string) {
    NoBrackets(name) && '|' !in name && name != "" && Captured(name) == slug
  }

  lemma AliasLinkMatches(name: string, slug: string, alias: string, rest: string)
    requires IsName(name, slug) && NoBrackets(alias)
    ensures MatchHere("[[" + (name + ("|" + alias)) + "]]" + rest)
      == Some(Match(slug, Some(alias), |name| + |alias| + 5))
  {
    PipeTail(alias);
    PipedLinkMatches(name, "|" + alias, rest);
  }

  lemma SpacedName(left: string, slug: string, right: string)
    requires LinkableSlug(slug) && AllSpace(left) && AllSpace(right)
    ensures IsName(left + (slug + right), slug)
  {
    SpaceHasNoBrackets(left);
    SpaceHasNoBrackets(right);
    NoBracketsSum(slug, right);
    NoBracketsSum(left, slug + right);
    StripUnique(left + (slug + right), left, slug, right);
    SpaceHasNoPipe(left);
    SpaceHasNoPipe(right);
  }

  lemma SpaceHasNoPipe(s: string)
    requires AllSpace(s)
    ensures '|' !in s
  {
    assert !IsSpace('|');
  }

  lemma SanitizedAtMatch(slugify: string -> string, slugs: set<string>, link: string, rest: string)
    requires MatchHere(link + rest).Some? && MatchHere(link + rest).value.end == |link|
    ensures var m := MatchHere(link + rest).value;
      Sanitize(slugify, slugs, link + rest)
        == (if slugify(m.target) in slugs then link else Shown(m)) + Sanitize(slugify, slugs, rest)
  {
    assert (link + rest)[..|link|] == link && (link + rest)[|link|..] == rest;
  }

  /** A link with an alias whose slug is unknown is shown as its alias, stripped, or as its name if the alias
      is empty; one to a known page is kept as it stands. White space around the name plays no part. */
  lemma AliasIsShown(slugify: string -> string, slugs: set<string>, left: string, slug: string, right: string,
      alias: string, rest: string)
    requires LinkableSlug(slug) && NoBrackets(alias) && AllSpace(left) && AllSpace(right)
    ensures var link := "[[" + ((left + (slug + right)) + ("|" + alias)) + "]]";
      Sanitize(slugify, slugs, link + rest) ==
        (if slugify(slug) in slugs then link else if alias != "" then Strip(alias) else slug)
        + Sanitize(slugify, slugs, rest)
  {
    SpacedName(left, slug, right);
    AliasLinkMatches(left + (slug + right), slug, alias, rest);
    SanitizedAtMatch(slugify, slugs, "[[" + ((left + (slug + right)) + ("|" + alias)) + "]]", rest);
    StripOfStripped(slug);
  }
}
