/** PII redaction: an email pass and then a payment-card pass, each replacing every leftmost match
    of a regular expression by a placeholder. */
module Redaction {
  import opened Strings

  /** Python's `\w` and `\d` beyond ASCII; the results hold for every Unicode table. */
  datatype Unicode = Unicode(word: char -> bool, digit: char -> bool)

  predicate IsDigit(u: Unicode, c: char) {
    '0' <= c <= '9' || (c as int >= 128 && u.digit(c))
  }

  predicate IsWord(u: Unicode, c: char) {
    || 'a' <= c <= 'z' || 'A' <= c <= 'Z' || c == '_' || IsDigit(u, c)
    || (c as int >= 128 && u.word(c))
  }

  /** The character classes of the two patterns: `[\w.+-]`, `[\w-]`, `[\w.-]` and `[ -]`. */
  datatype Class = Local | Host | Tail

  predicate In(u: Unicode, k: Class, c: char) {
    || IsWord(u, c) || c == '-'
    || (c == '.' && k != Host) || (c == '+' && k == Local)
  }

  predicate IsSep(c: char) {
    c == ' ' || c == '-'
  }

  // ---------------------------------------------------------------- the email pattern

  predicate AllIn(u: Unicode, k: Class, s: string, i: nat, j: nat) {
    i <= j <= |s| && forall x | i <= x < j :: In(u, k, s[x])
  }

  /** `s[i..j]` is `[\w.+-]+@[\w-]+\.[\w.-]+` with the at sign at `a` and the dot at `b`. */
  predicate EmailShape(u: Unicode, s: string, i: nat, a: nat, b: nat, j: nat) {
    && i < a && a + 1 < b && b + 1 < j <= |s|
    && s[a] == '@' && s[b] == '.'
    && AllIn(u, Local, s, i, a) && AllIn(u, Host, s, a + 1, b) && AllIn(u, Tail, s, b + 1, j)
  }

  ghost predicate IsEmail(u: Unicode, s: string, i: nat, j: nat) {
    exists a: nat, b: nat :: EmailShape(u, s, i, a, b, j)
  }

  /** End of the longest run of class `k` starting at `i`. */
  function RunEnd(u: Unicode, k: Class, s: string, i: nat): (j: nat)
    requires i <= |s|
    ensures AllIn(u, k, s, i, j)
    ensures j < |s| ==> !In(u, k, s[j])
    decreases |s| - i
  {
    if i < |s| && In(u, k, s[i]) then RunEnd(u, k, s, i + 1) else i
  }

  /** The match of the email pattern at `i`, every repetition taken as far as it goes. */
  function EmailEnd(u: Unicode, s: string, i: nat): (r: Option<nat>)
    requires i <= |s|
    ensures r.Some? ==> i < r.value <= |s| && IsEmail(u, s, i, r.value)
  {
    var a := RunEnd(u, Local, s, i);
    if a == i || a == |s| || s[a] != '@' then None
    else
      var b := RunEnd(u, Host, s, a + 1);
      if b == a + 1 || b == |s| || s[b] != '.' then None
      else
        var j := RunEnd(u, Tail, s, b + 1);
        if j == b + 1 then None
        else
          assert EmailShape(u, s, i, a, b, j);
          Some(j)
  }

  lemma RunEndIs(u: Unicode, k: Class, s: string, i: nat, j: nat)
    requires AllIn(u, k, s, i, j) && (j == |s| || !In(u, k, s[j]))
    ensures RunEnd(u, k, s, i) == j
  {
  }

  lemma RunEndCovers(u: Unicode, k: Class, s: string, i: nat, j: nat)
    requires AllIn(u, k, s, i, j)
    ensures RunEnd(u, k, s, i) >= j
  {
  }

  lemma EmailEndFinds(u: Unicode, s: string, i: nat, j: nat)
    requires i <= |s| && IsEmail(u, s, i, j)
    ensures EmailEnd(u, s, i).Some? && j <= EmailEnd(u, s, i).value
  {
    var a: nat, b: nat :| EmailShape(u, s, i, a, b, j);
    RunEndIs(u, Local, s, i, a);
    RunEndIs(u, Host, s, a + 1, b);
    RunEndCovers(u, Tail, s, b + 1, j);
  }

  /** The matcher finds a match at `i` exactly if one exists there, and returns the longest. */
  lemma EmailEndExact(u: Unicode, s: string, i: nat)
    requires i <= |s|
    ensures EmailEnd(u, s, i).Some? <==> exists j: nat :: IsEmail(u, s, i, j)
    ensures EmailEnd(u, s, i).Some? ==>
      IsEmail(u, s, i, EmailEnd(u, s, i).value) && forall j: nat | IsEmail(u, s, i, j) :: j <= EmailEnd(u, s, i).value
  {
    forall j: nat | IsEmail(u, s, i, j)
      ensures EmailEnd(u, s, i).Some? && j <= EmailEnd(u, s, i).value
    {
      EmailEndFinds(u, s, i, j);
    }
  }

  // ---------------------------------------------------------------- the card pattern

  predicate WordAt(u: Unicode, s: string, k: int) {
    0 <= k < |s| && IsWord(u, s[k])
  }

  /** `\b` at offset `k`. */
  predicate Boundary(u: Unicode, s: string, k: int) {
    WordAt(u, s, k - 1) != WordAt(u, s, k)
  }

  predicate DigitsAndSeps(u: Unicode, s: string, i: nat, j: nat) {
    i <= j <= |s| && forall x | i <= x < j :: IsDigit(u, s[x]) || IsSep(s[x])
  }

  function Digits(u: Unicode, s: string, i: nat, j: nat): (n: nat)
    requires i <= j <= |s|
    ensures n <= j - i
    decreases j - i
  {
    if i == j then 0 else Digits(u, s, i, j - 1) + if IsDigit(u, s[j - 1]) then 1 else 0
  }

  /** `s[i..j]` matches `\b(?:\d[ -]*?){13,16}\b`. */
  predicate IsCard(u: Unicode, s: string, i: nat, j: nat) {
    && i < j && DigitsAndSeps(u, s, i, j) && IsDigit(u, s[i])
    && 13 <= Digits(u, s, i, j) <= 16
    && Boundary(u, s, i) && Boundary(u, s, j)
  }

  /** Scan on from `k`, `Digits(i, k)` digits already taken, to the first admissible end. */
  function CardScan(u: Unicode, s: string, i: nat, k: nat): (r: Option<nat>)
    requires i < k && DigitsAndSeps(u, s, i, k) && IsDigit(u, s[i]) && Digits(u, s, i, k) <= 16
    requires Boundary(u, s, i)
    ensures r.Some? ==> i < r.value <= |s| && IsCard(u, s, i, r.value)
    decreases |s| - k
  {
    var n := Digits(u, s, i, k);
    if n >= 13 && Boundary(u, s, k) then Some(k)
    else if k < |s| && (IsSep(s[k]) || (IsDigit(u, s[k]) && n < 16)) then CardScan(u, s, i, k + 1)
    else None
  }

  function CardEnd(u: Unicode, s: string, i: nat): (r: Option<nat>)
    requires i <= |s|
    ensures r.Some? ==> i < r.value <= |s| && IsCard(u, s, i, r.value)
  {
    if i < |s| && IsDigit(u, s[i]) && Boundary(u, s, i) then
      assert Digits(u, s, i, i + 1) == 1;
      CardScan(u, s, i, i + 1)
    else None
  }

  lemma DigitsMonotone(u: Unicode, s: string, i: nat, k: nat, j: nat)
    requires i <= k <= j <= |s|
    ensures Digits(u, s, i, k) <= Digits(u, s, i, j)
    decreases j
  {
    if k < j {
      DigitsMonotone(u, s, i, k, j - 1);
    }
  }

  lemma CardScanFinds(u: Unicode, s: string, i: nat, k: nat, j: nat)
    requires IsCard(u, s, i, j) && i < k <= j && DigitsAndSeps(u, s, i, k) && Digits(u, s, i, k) <= 16
    ensures CardScan(u, s, i, k).Some? && CardScan(u, s, i, k).value <= j
    decreases j - k
  {
    if k < j && !(Digits(u, s, i, k) >= 13 && Boundary(u, s, k)) {
      DigitsMonotone(u, s, i, k + 1, j);
      CardScanFinds(u, s, i, k + 1, j);
    }
  }

  lemma CardEndFinds(u: Unicode, s: string, i: nat, j: nat)
    requires i <= |s| && IsCard(u, s, i, j)
    ensures CardEnd(u, s, i).Some? && CardEnd(u, s, i).value <= j
  {
    DigitsMonotone(u, s, i, i + 1, j);
    assert Digits(u, s, i, i + 1) == 1;
    CardScanFinds(u, s, i, i + 1, j);
  }

  /** The matcher finds a match at `i` exactly if one exists there, and returns the shortest. */
  lemma CardEndExact(u: Unicode, s: string, i: nat)
    requires i <= |s|
    ensures CardEnd(u, s, i).Some? <==> exists j: nat :: IsCard(u, s, i, j)
    ensures CardEnd(u, s, i).Some? ==>
      IsCard(u, s, i, CardEnd(u, s, i).value) && forall j: nat | IsCard(u, s, i, j) :: CardEnd(u, s, i).value <= j
  {
    forall j: nat | IsCard(u, s, i, j)
      ensures CardEnd(u, s, i).Some? && CardEnd(u, s, i).value <= j
    {
      CardEndFinds(u, s, i, j);
    }
  }

  // ---------------------------------------------------------------- substitution

  /** For each offset of a text, the end of the match a pattern has there. */
  type Ends = seq<Option<nat>>

  predicate ValidEnds(s: string, ends: Ends) {
    |ends| == |s| && forall i | 0 <= i < |ends| && ends[i].Some? :: i < ends[i].value <= |s|
  }

  function EmailEnds(u: Unicode, s: string): (ends: Ends)
    ensures ValidEnds(s, ends)
  {
    seq(|s|, i requires 0 <= i < |s| => EmailEnd(u, s, i))
  }

  function CardEnds(u: Unicode, s: string): (ends: Ends)
    ensures ValidEnds(s, ends)
  {
    seq(|s|, i requires 0 <= i < |s| => CardEnd(u, s, i))
  }

  const RedactedEmail := "[REDACTED_EMAIL]"
  const RedactedCc := "[REDACTED_CC]"

  /** `pattern.sub(mask, s)` from offset `i` on: leftmost matches, not overlapping. */
  function Sub(s: string, ends: Ends, mask: string, i: nat): string
    requires ValidEnds(s, ends) && i <= |s|
    decreases |s| - i
  {
    if i == |s| then ""
    else if ends[i].Some? then mask + Sub(s, ends, mask, ends[i].value)
    else [s[i]] + Sub(s, ends, mask, i + 1)
  }

  /** The number of substitutions made. */
  function Subs(s: string, ends: Ends, i: nat): nat
    requires ValidEnds(s, ends) && i <= |s|
    decreases |s| - i
  {
    if i == |s| then 0
    else if ends[i].Some? then 1 + Subs(s, ends, ends[i].value)
    else Subs(s, ends, i + 1)
  }

  function EmailPass(u: Unicode, s: string): string {
    Sub(s, EmailEnds(u, s), RedactedEmail, 0)
  }

  function CardPass(u: Unicode, s: string): string {
    Sub(s, CardEnds(u, s), RedactedCc, 0)
  }

  /** Both passes: the redacted text, and the categories found. */
  method Redact(u: Unicode, input: string) returns (text: string, categories: seq<string>)
    ensures text == CardPass(u, EmailPass(u, input))
    ensures categories == (if HasEmail(u, input) then ["email"] else [])
                        + (if HasCard(u, EmailPass(u, input)) then ["cc"] else [])
  {
    text, categories := input, [];
    var redacted, n := EmailPass(u, text), Subs(text, EmailEnds(u, text), 0);
    EmailCounted(u, text);
    if n > 0 {
      categories := categories + ["email"];
    }
    text := redacted;
    redacted, n := CardPass(u, text), Subs(text, CardEnds(u, text), 0);
    CardCounted(u, text);
    if n > 0 {
      categories := categories + ["cc"];
    }
    text := redacted;
  }

  ghost predicate HasEmail(u: Unicode, s: string) {
    exists i: nat, j: nat :: IsEmail(u, s, i, j)
  }

  ghost predicate HasCard(u: Unicode, s: string) {
    exists i: nat, j: nat :: IsCard(u, s, i, j)
  }

  predicate Unmatched(ends: Ends, i: nat, j: nat) {
    i <= j <= |ends| && forall k | i <= k < j :: ends[k].None?
  }

  lemma {:induction false} SubOfUnmatched(s: string, ends: Ends, mask: string, i: nat)
    requires ValidEnds(s, ends) && i <= |s|
    ensures Unmatched(ends, i, |s|) <==> Subs(s, ends, i) == 0
    ensures Unmatched(ends, i, |s|) ==> Sub(s, ends, mask, i) == s[i..]
    decreases |s| - i
  {
    if i < |s| && ends[i].None? {
      SubOfUnmatched(s, ends, mask, i + 1);
      assert s[i..] == [s[i]] + s[i + 1..];
    }
  }

  lemma EmailCounted(u: Unicode, s: string)
    ensures HasEmail(u, s) <==> Subs(s, EmailEnds(u, s), 0) > 0
    ensures !HasEmail(u, s) ==> EmailPass(u, s) == s
  {
    var ends := EmailEnds(u, s);
    SubOfUnmatched(s, ends, RedactedEmail, 0);
    assert s[0..] == s;
    if i: nat, j: nat :| IsEmail(u, s, i, j) {
      EmailEndFinds(u, s, i, j);
      assert ends[i] == EmailEnd(u, s, i);
    }
    if k: nat :| k < |s| && ends[k].Some? {
      assert IsEmail(u, s, k, ends[k].value);
    }
  }

  lemma CardCounted(u: Unicode, s: string)
    ensures HasCard(u, s) <==> Subs(s, CardEnds(u, s), 0) > 0
    ensures !HasCard(u, s) ==> CardPass(u, s) == s
  {
    var ends := CardEnds(u, s);
    SubOfUnmatched(s, ends, RedactedCc, 0);
    assert s[0..] == s;
    if i: nat, j: nat :| IsCard(u, s, i, j) {
      CardEndFinds(u, s, i, j);
      assert ends[i] == CardEnd(u, s, i);
    }
    if k: nat :| k < |s| && ends[k].Some? {
      assert IsCard(u, s, k, ends[k].value);
    }
  }

  // ---------------------------------------------------------------- where output comes from

  predicate NoBrackets(s: string, i: nat, j: nat) {
    i <= j <= |s| && forall x | i <= x < j :: s[x] != '[' && s[x] != ']'
  }

  /** The shape both placeholders share. */
  predicate IsMask(u: Unicode, mask: string) {
    && |mask| > 1 && mask[0] == '[' && mask[|mask| - 1] == ']'
    && forall x | 0 <= x < |mask| :: mask[x] != '@' && !IsDigit(u, mask[x])
  }

  lemma BothAreMasks(u: Unicode)
    ensures IsMask(u, RedactedEmail) && IsMask(u, RedactedCc)
  {
  }

  /** `text[x..y]` was copied from offset `x'` of the input, no match starting at any of its
      characters; the rest of the output is the substitution of the rest of the input. */
  predicate Copied(s: string, ends: Ends, mask: string, text: string, x: nat, y: nat, x': nat)
    requires ValidEnds(s, ends)
  {
    && x <= y <= |text| && x' + (y - x) <= |s|
    && text[x..y] == s[x'..x' + (y - x)]
    && Unmatched(ends, x', x' + (y - x))
    && text[y..] == Sub(s, ends, mask, x' + (y - x))
  }

  /** A bracket-free stretch at the head of the output was copied from the head of the input. */
  lemma {:induction false} HeadCopied(u: Unicode, s: string, ends: Ends, mask: string, i: nat, y: nat)
    requires ValidEnds(s, ends) && IsMask(u, mask) && i <= |s| && NoBrackets(Sub(s, ends, mask, i), 0, y)
    ensures Copied(s, ends, mask, Sub(s, ends, mask, i), 0, y, i)
    decreases |s| - i
  {
    var text := Sub(s, ends, mask, i);
    if y == 0 {
      assert text[0..] == text;
    } else {
      HeadUnmatched(u, s, ends, mask, i);
      var rest := Sub(s, ends, mask, i + 1);
      DropWindow(text, rest, 1, 1, y, y);
      HeadCopied(u, s, ends, mask, i + 1, y - 1);
      assert text[0..y] == [s[i]] + rest[0..y - 1];
      assert s[i..i + y] == [s[i]] + s[i + 1..i + 1 + (y - 1)];
      assert text[y..] == rest[y - 1..];
    }
  }

  lemma HeadUnmatched(u: Unicode, s: string, ends: Ends, mask: string, i: nat)
    requires ValidEnds(s, ends) && IsMask(u, mask) && i <= |s|
    requires |Sub(s, ends, mask, i)| > 0 && Sub(s, ends, mask, i)[0] != '['
    ensures i < |s| && ends[i].None?
  {
  }

  /** What comes before a copied stretch: the start of the text, a copied character, or a
      placeholder. */
  predicate CopiedAfter(s: string, ends: Ends, i: nat, text: string, x: nat, x': nat)
    requires ValidEnds(s, ends) && x <= |text|
  {
    || (x == 0 && x' == i)
    || (x > 0 && i < x' <= |s| && text[x - 1] == s[x' - 1])
    || (x > 0 && text[x - 1] == ']' && exists m: nat | m < |s| :: i <= m < x' && ends[m] == Some(x'))
  }

  /** A bracket-free stretch of a text that holds a character no placeholder has, at `mark`. */
  predicate Window(u: Unicode, text: string, x: int, y: int, mark: int) {
    0 <= x <= mark < y && NoBrackets(text, x, y) && (text[mark] == '@' || IsDigit(u, text[mark]))
  }

  /** Such a stretch of the output was copied from the input. */
  lemma {:induction false} WindowCopied(u: Unicode, s: string, ends: Ends, mask: string, i: nat, x: nat, y: nat,
                                        mark: nat)
    returns (x': nat)
    requires ValidEnds(s, ends) && IsMask(u, mask)
    requires i <= |s| && Window(u, Sub(s, ends, mask, i), x, y, mark)
    ensures i <= x'
    ensures Copied(s, ends, mask, Sub(s, ends, mask, i), x, y, x')
    ensures CopiedAfter(s, ends, i, Sub(s, ends, mask, i), x, x')
    decreases |s| - i
  {
    var text := Sub(s, ends, mask, i);
    if x == 0 {
      HeadCopied(u, s, ends, mask, i, y);
      x' := i;
    } else {
      var step, j := CutFirst(u, s, ends, mask, i, x, y, mark);
      x' := WindowCopied(u, s, ends, mask, j, x - step, y - step, mark - step);
      StepCopied(s, ends, mask, text, Sub(s, ends, mask, j), i, step, j, x, y, x');
    }
  }

  /** What is copied behind the first step is copied. */
  lemma StepCopied(s: string, ends: Ends, mask: string, text: string, rest: string, i: nat, step: nat, j: nat, x: nat,
                   y: nat, x': nat)
    requires ValidEnds(s, ends) && i < j <= |s| && 0 < step <= x <= y <= |text| && rest == text[step..]
    requires (ends[i].None? && j == i + 1 && text[step - 1] == s[i]) || (ends[i] == Some(j) && text[step - 1] == ']')
    requires Copied(s, ends, mask, rest, x - step, y - step, x') && CopiedAfter(s, ends, j, rest, x - step, x')
    ensures Copied(s, ends, mask, text, x, y, x') && CopiedAfter(s, ends, i, text, x, x')
  {
    Shift(s, ends, mask, text, rest, step, x, y, x');
    AfterStep(s, ends, i, text, rest, step, j, x, x');
  }

  /** Drop what the first step of the substitution put out; the stretch lies beyond it. */
  lemma CutFirst(u: Unicode, s: string, ends: Ends, mask: string, i: nat, x: nat, y: nat, mark: nat)
    returns (step: nat, j: nat)
    requires ValidEnds(s, ends) && IsMask(u, mask)
    requires i <= |s| && 0 < x && Window(u, Sub(s, ends, mask, i), x, y, mark)
    ensures i < j <= |s| && 0 < step <= x
    ensures var text, rest := Sub(s, ends, mask, i), Sub(s, ends, mask, j);
      && rest == text[step..]
      && Window(u, rest, x - step, y - step, mark - step)
      && ((ends[i].None? && j == i + 1 && text[step - 1] == s[i]) || (ends[i] == Some(j) && text[step - 1] == ']'))
  {
    var text := Sub(s, ends, mask, i);
    if ends[i].Some? {
      step, j := |mask|, ends[i].value;
      OutsideMask(u, mask, text, Sub(s, ends, mask, j), x, y, mark);
    } else {
      step, j := 1, i + 1;
    }
    DropWindow(text, Sub(s, ends, mask, j), step, x, y, mark);
  }

  lemma AfterStep(s: string, ends: Ends, i: nat, text: string, rest: string, step: nat, j: nat, x: nat, x': nat)
    requires ValidEnds(s, ends) && i < j <= |s| && 0 < step <= x <= |text| && rest == text[step..]
    requires (ends[i].None? && j == i + 1 && text[step - 1] == s[i]) || (ends[i] == Some(j) && text[step - 1] == ']')
    requires CopiedAfter(s, ends, j, rest, x - step, x')
    ensures CopiedAfter(s, ends, i, text, x, x')
  {
    if x > step {
      assert text[x - 1] == rest[x - step - 1];
    }
  }

  lemma OutsideMask(u: Unicode, mask: string, text: string, rest: string, x: nat, y: nat, mark: nat)
    requires IsMask(u, mask) && text == mask + rest && Window(u, text, x, y, mark)
    ensures |mask| <= x && text[|mask| - 1] == ']'
  {
    assert text[|mask| - 1] == mask[|mask| - 1];
    assert text[..|mask|] == mask;
  }

  lemma DropWindow(text: string, rest: string, step: nat, x: nat, y: nat, mark: nat)
    requires step <= x <= mark <= y && step <= |text| && text[step..] == rest && NoBrackets(text, x, y)
    ensures NoBrackets(rest, x - step, y - step) && (mark < y ==> text[mark] == rest[mark - step])
  {
    assert forall k | 0 <= k < |rest| :: rest[k] == text[k + step];
  }

  lemma Shift(s: string, ends: Ends, mask: string, text: string, rest: string, step: nat, x: nat, y: nat, x': nat)
    requires step <= x <= y <= |text| && text[step..] == rest
    requires ValidEnds(s, ends) && Copied(s, ends, mask, rest, x - step, y - step, x')
    ensures Copied(s, ends, mask, text, x, y, x')
  {
    assert rest[x - step..y - step] == text[x..y];
    assert rest[y - step..] == text[y..];
  }

  // ---------------------------------------------------------------- nothing is left

  lemma ClassesAvoidBrackets(u: Unicode, s: string, i: nat, a: nat, b: nat, j: nat)
    requires EmailShape(u, s, i, a, b, j)
    ensures NoBrackets(s, a - 1, b + 2)
  {
    forall x | a - 1 <= x < b + 2
      ensures s[x] != '[' && s[x] != ']'
    {
      assert x == a - 1 ==> In(u, Local, s[x]);
      assert a < x < b ==> In(u, Host, s[x]);
      assert x == b + 1 ==> In(u, Tail, s[x]);
    }
  }

  lemma SameStretch(s: string, text: string, x: nat, y: nat, x': nat)
    requires x <= y <= |text| && x' + (y - x) <= |s| && text[x..y] == s[x'..x' + (y - x)]
    ensures forall k {:trigger s[k]} | x' <= k < x' + (y - x) :: s[k] == text[k - x' + x]
  {
    forall k {:trigger s[k]} | x' <= k < x' + (y - x)
      ensures s[k] == text[k - x' + x]
    {
      assert s[k] == s[x'..x' + (y - x)][k - x'];
    }
  }

  /** The core of an address, copied verbatim, is an address. */
  lemma CoreCopied(u: Unicode, s: string, text: string, i: nat, a: nat, b: nat, j: nat, k: nat)
    requires EmailShape(u, text, i, a, b, j)
    requires k + (b + 2 - (a - 1)) <= |s| && text[a - 1..b + 2] == s[k..k + (b + 2 - (a - 1))]
    ensures IsEmail(u, s, k, k + 3 + b - a)
  {
    SameStretch(s, text, a - 1, b + 2, k);
    assert In(u, Local, text[a - 1]) && In(u, Tail, text[b + 1]);
    assert AllIn(u, Local, s, k, k + 1);
    assert AllIn(u, Tail, s, k + 2 + b - a, k + 3 + b - a);
    assert AllIn(u, Host, s, k + 2, k + 1 + b - a);
    assert EmailShape(u, s, k, k + 1, k + 1 + b - a, k + 3 + b - a);
  }

  /** A pass that replaces at least the starts of addresses leaves none and makes none. */
  lemma NoAddressRemains(u: Unicode, s: string, ends: Ends, mask: string)
    requires ValidEnds(s, ends) && IsMask(u, mask)
    requires forall k: nat, e: nat | k < |s| && IsEmail(u, s, k, e) :: ends[k].Some?
    ensures !HasEmail(u, Sub(s, ends, mask, 0))
  {
    var text := Sub(s, ends, mask, 0);
    if i: nat, j: nat :| IsEmail(u, text, i, j) {
      var a: nat, b: nat :| EmailShape(u, text, i, a, b, j);
      ClassesAvoidBrackets(u, text, i, a, b, j);
      var k := WindowCopied(u, s, ends, mask, 0, a - 1, b + 2, a);
      CoreCopied(u, s, text, i, a, b, j, k);
      assert false;
    }
  }

  /** After the email pass no substring matches the email pattern. */
  lemma EmailPassComplete(u: Unicode, s: string)
    ensures !HasEmail(u, EmailPass(u, s))
  {
    BothAreMasks(u);
    forall k: nat, e: nat | k < |s| && IsEmail(u, s, k, e)
      ensures EmailEnds(u, s)[k].Some?
    {
      EmailEndFinds(u, s, k, e);
    }
    NoAddressRemains(u, s, EmailEnds(u, s), RedactedEmail);
  }

  lemma DigitsCopied(u: Unicode, s: string, text: string, x: nat, y: nat, x': nat, n: nat)
    requires x <= y <= |text| && x' + (y - x) <= |s| && text[x..y] == s[x'..x' + (y - x)] && n <= y - x
    ensures Digits(u, s, x', x' + n) == Digits(u, text, x, x + n)
    decreases n
  {
    if n > 0 {
      DigitsCopied(u, s, text, x, y, x', n - 1);
      SameStretch(s, text, x, y, x');
      assert s[x' + n - 1] == text[x + n - 1];
    }
  }

  lemma StartBoundary(u: Unicode, s: string, text: string, x: nat, x': nat)
    requires x < |text| && x' < |s| && text[x] == s[x'] && IsDigit(u, text[x])
    requires Boundary(u, text, x) && CopiedAfter(s, CardEnds(u, s), 0, text, x, x')
    ensures Boundary(u, s, x')
  {
    if x > 0 && !(0 < x' && text[x - 1] == s[x' - 1]) {
      var m: nat :| m < |s| && m < x' && CardEnds(u, s)[m] == Some(x');
      assert IsCard(u, s, m, x');
    }
  }

  lemma EndBoundary(u: Unicode, s: string, text: string, y: nat, y': nat)
    requires 0 < y <= |text| && 0 < y' <= |s| && text[y - 1] == s[y' - 1]
    requires Boundary(u, text, y) && text[y..] == Sub(s, CardEnds(u, s), RedactedCc, y')
    ensures Boundary(u, s, y')
  {
    var ends := CardEnds(u, s);
    if y' < |s| {
      assert text[y..][0] == text[y];
      if ends[y'].Some? {
        assert IsCard(u, s, y', ends[y'].value);
      }
    }
  }

  lemma CardInside(u: Unicode, s: string, text: string, x: nat, y: nat, k: nat)
    requires IsCard(u, text, x, y) && k + (y - x) <= |s| && text[x..y] == s[k..k + (y - x)]
    requires Boundary(u, s, k) && Boundary(u, s, k + (y - x))
    ensures IsCard(u, s, k, k + (y - x))
  {
    SameStretch(s, text, x, y, k);
    DigitsCopied(u, s, text, x, y, k, y - x);
  }

  lemma CardCopied(u: Unicode, s: string, x: nat, y: nat, k: nat)
    requires IsCard(u, CardPass(u, s), x, y)
    requires Copied(s, CardEnds(u, s), RedactedCc, CardPass(u, s), x, y, k)
    requires CopiedAfter(s, CardEnds(u, s), 0, CardPass(u, s), x, k)
    ensures IsCard(u, s, k, k + (y - x))
  {
    var text := CardPass(u, s);
    SameStretch(s, text, x, y, k);
    assert s[k] == text[x] && s[k + (y - x) - 1] == text[y - 1];
    StartBoundary(u, s, text, x, k);
    EndBoundary(u, s, text, y, k + (y - x));
    CardInside(u, s, text, x, y, k);
  }

  /** After the card pass no substring matches the card pattern. */
  lemma CardPassComplete(u: Unicode, s: string)
    ensures !HasCard(u, CardPass(u, s))
  {
    var ends, text := CardEnds(u, s), CardPass(u, s);
    if x: nat, y: nat :| IsCard(u, text, x, y) {
      BothAreMasks(u);
      var k := WindowCopied(u, s, ends, RedactedCc, 0, x, y, x);
      assert ends[k].None?;
      CardCopied(u, s, x, y, k);
      CardEndFinds(u, s, k, k + (y - x));
      assert false;
    }
  }

  /** The card pass rewrites text without making an address out of it. */
  lemma RedactionComplete(u: Unicode, input: string)
    ensures var text := CardPass(u, EmailPass(u, input)); !HasEmail(u, text) && !HasCard(u, text)
  {
    var mid := EmailPass(u, input);
    EmailPassComplete(u, input);
    CardPassComplete(u, mid);
    BothAreMasks(u);
    NoAddressRemains(u, mid, CardEnds(u, mid), RedactedCc);
  }

  /** Redacting redacted text, or only running the email pass on it, changes nothing. */
  lemma RedactionIdempotent(u: Unicode, input: string)
    ensures var text := CardPass(u, EmailPass(u, input));
      EmailPass(u, text) == text && CardPass(u, EmailPass(u, text)) == text
  {
    var text := CardPass(u, EmailPass(u, input));
    RedactionComplete(u, input);
    EmailCounted(u, text);
    CardCounted(u, text);
  }

  // ---------------------------------------------------------------- nothing else is touched

  /** A piece of the input: one character kept, or one match replaced. */
  datatype Piece = Kept(c: char) | Masked(from: nat, to: nat)

  function Before(s: string, pieces: seq<Piece>): string {
    if pieces == [] then ""
    else (match pieces[0]
          case Kept(c) => [c]
          case Masked(i, j) => if i <= j <= |s| then s[i..j] else "") + Before(s, pieces[1..])
  }

  function After(mask: string, pieces: seq<Piece>): string {
    if pieces == [] then ""
    else (if pieces[0].Kept? then [pieces[0].c] else mask) + After(mask, pieces[1..])
  }

  /** Input and output are the same pieces, and every masked piece is a match of the pattern. */
  lemma {:induction false} SubMasksMatchesOnly(s: string, ends: Ends, mask: string, i: nat) returns (pieces: seq<Piece>)
    requires ValidEnds(s, ends) && i <= |s|
    ensures Before(s, pieces) == s[i..] && After(mask, pieces) == Sub(s, ends, mask, i)
    ensures forall k | 0 <= k < |pieces| && pieces[k].Masked? ::
      pieces[k].from < |s| && ends[pieces[k].from] == Some(pieces[k].to)
    decreases |s| - i
  {
    if i == |s| {
      pieces := [];
    } else if ends[i].Some? {
      var j := ends[i].value;
      var rest := SubMasksMatchesOnly(s, ends, mask, j);
      pieces := [Masked(i, j)] + rest;
      assert s[i..] == s[i..j] + s[j..];
    } else {
      var rest := SubMasksMatchesOnly(s, ends, mask, i + 1);
      pieces := [Kept(s[i])] + rest;
      assert s[i..] == [s[i]] + s[i + 1..];
    }
  }
}
