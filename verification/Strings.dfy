/** Python string helpers the pipeline relies on: `str.strip`, `str.split`, `str.join`,
    order-preserving de-duplication and substring search. */
module Strings {

  datatype Option<+T> = None | Some(value: T)

  datatype Result<+T, +E> = Ok(ok: T) | Err(error: E)

  /** Python's `str.isspace`, the set stripped by `str.strip` and matched by `\s`. */
  predicate IsSpace(c: char) {
    var n := c as int;
    || 0x09 <= n <= 0x0d || 0x1c <= n <= 0x20 || n == 0x85 || n == 0xa0 || n == 0x1680
    || 0x2000 <= n <= 0x200a || n == 0x2028 || n == 0x2029 || n == 0x202f || n == 0x205f || n == 0x3000
  }

  predicate AllSpace(s: string) {
    forall i | 0 <= i < |s| :: IsSpace(s[i])
  }

  predicate Stripped(s: string) {
    s == "" || (!IsSpace(s[0]) && !IsSpace(s[|s| - 1]))
  }

  /** End of the run of white space starting at `i`. */
  function SpaceEnd(s: string, i: nat): (j: nat)
    requires i <= |s|
    ensures i <= j <= |s| && (j < |s| ==> !IsSpace(s[j]))
    ensures forall k | i <= k < j :: IsSpace(s[k])
    decreases |s| - i
  {
    if i < |s| && IsSpace(s[i]) then SpaceEnd(s, i + 1) else i
  }

  /** Start of the run of white space ending at `j`. */
  function SpaceStart(s: string, j: nat): (i: nat)
    requires j <= |s|
    ensures i <= j && (i > 0 ==> !IsSpace(s[i - 1]))
    ensures forall k | i <= k < j :: IsSpace(s[k])
  {
    if j > 0 && IsSpace(s[j - 1]) then SpaceStart(s, j - 1) else j
  }

  function LStrip(s: string): string {
    s[SpaceEnd(s, 0)..]
  }

  function RStrip(s: string): string {
    s[..SpaceStart(s, |s|)]
  }

  function Strip(s: string): string {
    RStrip(LStrip(s))
  }

  lemma AllSpaceFrom(s: string, j: nat)
    requires j <= |s| && forall k | j <= k < |s| :: IsSpace(s[k])
    ensures AllSpace(s[j..])
  {
  }

  lemma CutAt<T>(s: seq<T>, j: nat)
    requires j <= |s|
    ensures s == s[..j] + s[j..]
  {
  }

  lemma RStripSplits(l: string)
    ensures l == RStrip(l) + l[|RStrip(l)|..] && AllSpace(l[|RStrip(l)|..])
    ensures l == "" || !IsSpace(l[0]) ==> Stripped(RStrip(l))
  {
    var j := SpaceStart(l, |l|);
    CutAt(l, j);
    AllSpaceFrom(l, j);
  }

  lemma LStripSplits(s: string)
    ensures s == s[..|s| - |LStrip(s)|] + LStrip(s) && AllSpace(s[..|s| - |LStrip(s)|])
    ensures LStrip(s) == "" || !IsSpace(LStrip(s)[0])
  {
  }

  /** Stripping removes white space at the two ends and nothing else. */
  lemma StripSplits(s: string) returns (left: string, right: string)
    ensures s == left + (Strip(s) + right)
    ensures AllSpace(left) && AllSpace(right) && Stripped(Strip(s))
  {
    var l := LStrip(s);
    LStripSplits(s);
    RStripSplits(l);
    left, right := s[..|s| - |l|], l[|RStrip(l)|..];
  }

  lemma SpaceEndIs(s: string, i: nat, j: nat)
    requires i <= j <= |s| && AllSpace(s[i..j]) && (j == |s| || !IsSpace(s[j]))
    ensures SpaceEnd(s, i) == j
  {
    assert forall k | i <= k < j :: s[k] == s[i..j][k - i];
  }

  lemma SpaceStartIs(s: string, i: nat, j: nat)
    requires i <= j <= |s| && AllSpace(s[i..j]) && (i == 0 || !IsSpace(s[i - 1]))
    ensures SpaceStart(s, j) == i
  {
    assert forall k | i <= k < j :: s[k] == s[i..j][k - i];
  }

  /** There is one way to cut white space off the two ends of a text. */
  lemma StripUnique(s: string, left: string, mid: string, right: string)
    requires s == left + (mid + right) && AllSpace(left) && AllSpace(right) && Stripped(mid)
    ensures Strip(s) == mid
  {
    if mid == "" {
      assert s == left + right;
      SpaceEndIs(s, 0, |s|);
    } else {
      assert s[0..|left|] == left && s[|left|] == mid[0];
      SpaceEndIs(s, 0, |left|);
      var l := mid + right;
      assert s[|left|..] == l;
      assert l[|mid|..|l|] == right && l[|mid| - 1] == mid[|mid| - 1];
      SpaceStartIs(l, |mid|, |l|);
    }
  }

  lemma StripOfStripped(s: string)
    requires Stripped(s)
    ensures Strip(s) == s
  {
    StripUnique(s, "", s, "");
  }

  lemma StripIgnoresLead(space: string, tail: string)
    requires AllSpace(space)
    ensures Strip(space + tail) == Strip(tail)
  {
    var left, right := StripSplits(tail);
    Assoc(space, left, Strip(tail) + right);
    AllSpaceConcat(space, left);
    StripUnique(space + tail, space + left, Strip(tail), right);
  }

  lemma AllSpaceBetween(s: string, i: nat, j: nat)
    requires i <= j <= |s| && forall k | i <= k < j :: IsSpace(s[k])
    ensures AllSpace(s[i..j])
  {
  }

  /** Skipping leading white space first makes no difference. */
  lemma StripSkips(s: string, i: nat)
    requires i <= |s|
    ensures Strip(s[SpaceEnd(s, i)..]) == Strip(s[i..])
  {
    var j := SpaceEnd(s, i);
    AllSpaceBetween(s, i, j);
    assert s[i..] == s[i..j] + s[j..];
    StripIgnoresLead(s[i..j], s[j..]);
  }

  lemma AllSpaceConcat(a: string, b: string)
    requires AllSpace(a) && AllSpace(b)
    ensures AllSpace(a + b)
  {
  }

  lemma Assoc<T>(a: seq<T>, b: seq<T>, c: seq<T>)
    ensures (a + b) + c == a + (b + c)
  {
  }

  lemma SetAssoc<T>(a: set<T>, b: set<T>, c: set<T>)
    ensures a + (b + c) == (a + b) + c
  {
  }

  lemma Cut<T>(s: seq<T>, i: nat, j: nat)
    requires i <= j <= |s|
    ensures s == s[..i] + s[i..j] + s[j..]
  {
  }

  /** `needle` occurs in `s` at offset `i`. */
  predicate OccursAt(s: string, needle: string, i: int) {
    0 <= i && i + |needle| <= |s| && s[i..i + |needle|] == needle
  }

  ghost predicate Contains(s: string, needle: string) {
    exists i :: OccursAt(s, needle, i)
  }

  /** First offset at or after `from` where `needle` occurs (`str.find`). */
  function Find(s: string, needle: string, from: nat): (r: Option<nat>)
    requires from <= |s|
    ensures r.Some? ==> from <= r.value && OccursAt(s, needle, r.value)
    ensures r.Some? ==> forall i | from <= i < r.value :: !OccursAt(s, needle, i)
    ensures r.None? ==> forall i | from <= i :: !OccursAt(s, needle, i)
    decreases |s| - from
  {
    if OccursAt(s, needle, from) then Some(from)
    else if from == |s| then None
    else Find(s, needle, from + 1)
  }

  /** `sep.join(parts)`. */
  function Join(parts: seq<string>, sep: string): string {
    if |parts| == 0 then ""
    else if |parts| == 1 then parts[0]
    else Join(parts[..|parts| - 1], sep) + sep + parts[|parts| - 1]
  }

  lemma {:induction false} JoinAppend(a: seq<string>, b: seq<string>, sep: string)
    requires |a| > 0 && |b| > 0
    ensures Join(a + b, sep) == Join(a, sep) + sep + Join(b, sep)
  {
    var ab := a + b;
    assert ab[|ab| - 1] == b[|b| - 1];
    if |b| == 1 {
      assert ab[..|ab| - 1] == a;
    } else {
      assert ab[..|ab| - 1] == a + b[..|b| - 1];
      JoinAppend(a, b[..|b| - 1], sep);
    }
  }

  /** A sequence whose elements are pairwise different. */
  predicate Distinct(s: seq<string>) {
    forall i, j | 0 <= i < j < |s| :: s[i] != s[j]
  }

  /** First-seen order de-duplication, as a function of the sequence. */
  function Deduped(s: seq<string>): (r: seq<string>)
    ensures Distinct(r)
    ensures forall x :: x in r <==> x in s
    ensures |s| > 0 ==> |r| > 0
  {
    if s == [] then []
    else
      var front := Deduped(s[..|s| - 1]);
      assert forall x :: x in s <==> x in s[..|s| - 1] || x == s[|s| - 1];
      if s[|s| - 1] in front then front else front + [s[|s| - 1]]
  }

  lemma {:induction false} DedupedOfDistinct(s: seq<string>)
    requires Distinct(s)
    ensures Deduped(s) == s
  {
    if s != [] {
      DedupedOfDistinct(s[..|s| - 1]);
      assert s == s[..|s| - 1] + [s[|s| - 1]];
    }
  }

  /** De-duplicating an extended list only appends: what was there keeps its place. */
  lemma {:induction false} DedupedExtends(a: seq<string>, b: seq<string>)
    ensures Deduped(a) <= Deduped(a + b)
  {
    if b == [] {
      assert a + b == a;
    } else {
      assert (a + b)[..|a + b| - 1] == a + b[..|b| - 1];
      DedupedExtends(a, b[..|b| - 1]);
    }
  }

  /** Somewhere in the list `x` stands before every `y`. */
  predicate ComesFirst<T(==)>(all: seq<T>, x: T, y: T) {
    exists p | 0 <= p < |all| :: all[p] == x && forall q | 0 <= q < |all| && all[q] == y :: p < q
  }

  /** What is left of a list stands in the order in which the list first shows it. */
  lemma {:induction false} DedupedOrder(s: seq<string>, i: nat, j: nat)
    requires i < j < |Deduped(s)|
    ensures ComesFirst(s, Deduped(s)[i], Deduped(s)[j])
  {
    var front, kept := s[..|s| - 1], Deduped(s[..|s| - 1]);
    var x, y := Deduped(s)[i], Deduped(s)[j];
    if j < |kept| {
      DedupedOrder(front, i, j);
      FirstStays(front, s[|s| - 1], x, y);
      assert s == front + [s[|s| - 1]];
    } else {
      assert x in front && y !in front;
      var p :| 0 <= p < |front| && front[p] == x;
      assert s[p] == x && forall q | 0 <= q < |front| :: s[q] == front[q];
    }
  }

  /** What comes first in a list put together of two does so in the first part, or in the second one. */
  lemma FirstOfSum<T>(a: seq<T>, b: seq<T>, x: T, y: T)
    requires ComesFirst(a + b, x, y)
    ensures ComesFirst(a, x, y) || (y !in a && ComesFirst(b, x, y))
  {
    var all := a + b;
    var p :| 0 <= p < |all| && all[p] == x && forall q | 0 <= q < |all| && all[q] == y :: p < q;
    assert forall q | 0 <= q < |a| :: all[q] == a[q];
    assert forall q | 0 <= q < |b| :: all[|a| + q] == b[q];
    if p < |a| {
      assert a[p] == x;
    } else {
      assert b[p - |a|] == x;
    }
  }

  lemma FirstStays<T>(a: seq<T>, last: T, x: T, y: T)
    requires ComesFirst(a, x, y)
    ensures ComesFirst(a + [last], x, y)
  {
    var all := a + [last];
    var p :| 0 <= p < |a| && a[p] == x && forall q | 0 <= q < |a| && a[q] == y :: p < q;
    assert all[p] == x && forall q | 0 <= q < |a| :: all[q] == a[q];
  }

  lemma LastIsFirst<T>(a: seq<T>, x: T, y: T)
    requires y !in a && x != y
    ensures ComesFirst(a + [x], x, y)
  {
    var all := a + [x];
    assert all[|a|] == x && forall q | 0 <= q < |a| :: all[q] == a[q] && a[q] in a;
  }
}
