/** The choice extractor of storybook.py (`extract_choices`): a header test
    (`re.search` of `Choices?:\s*(1\..*?)(?:\n2\..*?)(?:\n3\..*?)?` under
    DOTALL) followed by an item scan (`re.findall` of `\d+\.\s*(.*)`), both
    written as hand scanners specialised to their pattern. */
module Choices {
  import opened Text

  /** What the extractor returns when the model's text has no choices header. */
  const Fallback: seq<string> := ["Option 1", "Option 2"]

  // ---------------------------------------------------------------------------
  // Header test
  // ---------------------------------------------------------------------------

  /** `Choices?:` matches at `i` and ends at `k`. */
  predicate KeywordAt(s: string, i: nat, k: nat) {
    (OccursAt(s, "Choice:", i) && k == i + 7) || (OccursAt(s, "Choices:", i) && k == i + 8)
  }

  /** One way the header regex can match in `s`: the keyword at `i..k`, any
      whitespace `s[k..w]` (the regex engine may try every length of `\s*`),
      `1.` at `w`, and `\n2.` at some `j` not before the end of `1.` (the lazy
      DOTALL `.*?` may take any text, even none). The optional third group can
      always match empty, so it does not appear. */
  ghost predicate HeaderMatch(s: string, i: nat, k: nat, w: nat, j: nat) {
    KeywordAt(s, i, k) && k <= w <= |s| && AllSpace(s[k..w])
    && OccursAt(s, "1.", w) && w + 2 <= j && OccursAt(s, "\n2.", j)
  }

  /** The header regex matches somewhere in `s`. */
  ghost predicate HeaderPattern(s: string) {
    exists i, k, w, j :: HeaderMatch(s, i, k, w, j)
  }

  /** `\n2.` occurs at or after `j`. */
  function NewlineTwoFrom(s: string, j: nat): bool
    decreases |s| - j
  {
    if j + 3 > |s| then false
    else OccursAt(s, "\n2.", j) || NewlineTwoFrom(s, j + 1)
  }

  /** The rest of the header after the keyword, from index `k`: a maximal
      whitespace run, `1.`, then a later `\n2.`. */
  function HeaderAfter(s: string, k: nat): bool
    requires k <= |s|
  {
    var w := SkipSpaces(s, k);
    OccursAt(s, "1.", w) && NewlineTwoFrom(s, w + 2)
  }

  /** The header regex matches starting at index `i`. */
  function HeaderAt(s: string, i: nat): bool {
    if OccursAt(s, "Choice:", i) then HeaderAfter(s, i + 7)
    else if OccursAt(s, "Choices:", i) then HeaderAfter(s, i + 8)
    else false
  }

  /** `re.search`: the header matches at some index at or after `i`. */
  function SearchHeader(s: string, i: nat): bool
    decreases |s| - i
  {
    if i >= |s| then false else HeaderAt(s, i) || SearchHeader(s, i + 1)
  }

  lemma {:induction false} NewlineTwoFromSound(s: string, j: nat)
    ensures NewlineTwoFrom(s, j) <==> exists j' :: j <= j' && OccursAt(s, "\n2.", j')
    decreases |s| - j
  {
    if j + 3 <= |s| {
      NewlineTwoFromSound(s, j + 1);
      forall j' | j <= j' && OccursAt(s, "\n2.", j')
        ensures j' == j || j + 1 <= j'
      {
      }
    }
  }

  /** A whitespace run that stops at a non-space ends where `SkipSpaces` does. */
  lemma {:induction false} SpaceRunEnd(s: string, k: nat, w: nat)
    requires k <= w < |s| && AllSpace(s[k..w]) && !IsSpace(s[w])
    ensures SkipSpaces(s, k) == w
    decreases w - k
  {
    if k < w {
      assert s[k..w][0] == s[k];
      assert s[k + 1..w] == s[k..w][1..];
      SpaceRunEnd(s, k + 1, w);
    }
  }

  /** Backtracking `\s*` cannot change the outcome: `1.` can only follow the
      whole whitespace run, because `1` is not whitespace. */
  lemma OnlyMaximalRun(s: string, k: nat, w: nat)
    requires k <= w <= |s| && AllSpace(s[k..w]) && OccursAt(s, "1.", w)
    ensures w == SkipSpaces(s, k)
  {
    assert s[w..w + 2][0] == s[w];
    SpaceRunEnd(s, k, w);
  }

  lemma HeaderAfterSound(s: string, k: nat)
    requires k <= |s|
    ensures HeaderAfter(s, k) <==>
      exists w, j :: k <= w <= |s| && AllSpace(s[k..w]) && OccursAt(s, "1.", w) && w + 2 <= j && OccursAt(s, "\n2.", j)
  {
    var m := SkipSpaces(s, k);
    NewlineTwoFromSound(s, m + 2);
    forall w, j | k <= w <= |s| && AllSpace(s[k..w]) && OccursAt(s, "1.", w) && w + 2 <= j && OccursAt(s, "\n2.", j)
      ensures HeaderAfter(s, k)
    {
      OnlyMaximalRun(s, k, w);
    }
  }

  lemma HeaderAtSound(s: string, i: nat)
    ensures HeaderAt(s, i) <==> exists k, w, j :: HeaderMatch(s, i, k, w, j)
  {
    if OccursAt(s, "Choice:", i) {
      assert s[i + 6] == s[i..i + 7][6] == ':';
      assert !OccursAt(s, "Choices:", i) by {
        if i + 8 <= |s| {
          assert s[i..i + 8][6] == s[i + 6];
        }
      }
      KeywordRest(s, i, i + 7);
    } else if OccursAt(s, "Choices:", i) {
      KeywordRest(s, i, i + 8);
    }
  }

  lemma KeywordRest(s: string, i: nat, k: nat)
    requires k <= |s|
    requires forall k' :: KeywordAt(s, i, k') <==> k' == k
    ensures HeaderAfter(s, k) <==> exists k', w, j :: HeaderMatch(s, i, k', w, j)
  {
    HeaderAfterSound(s, k);
    if HeaderAfter(s, k) {
      var w: nat, j: nat :| k <= w <= |s| && AllSpace(s[k..w]) && OccursAt(s, "1.", w) && w + 2 <= j && OccursAt(s, "\n2.", j);
      assert HeaderMatch(s, i, k, w, j);
    }
  }

  lemma {:induction false} SearchHeaderSound(s: string, i: nat)
    ensures SearchHeader(s, i) <==> exists i', k, w, j :: i <= i' && HeaderMatch(s, i', k, w, j)
    decreases |s| - i
  {
    if i >= |s| {
      forall i', k, w, j | i <= i' ensures !HeaderMatch(s, i', k, w, j) { }
    } else {
      HeaderAtSound(s, i);
      SearchHeaderSound(s, i + 1);
      forall i', k, w, j | i <= i' && HeaderMatch(s, i', k, w, j)
        ensures HeaderAt(s, i) || SearchHeader(s, i + 1)
      {
        if i' == i {
          assert exists k, w, j :: HeaderMatch(s, i, k, w, j);
        }
      }
    }
  }

  /** The hand scanner decides exactly the header regex. */
  lemma HeaderTestSound(s: string)
    ensures SearchHeader(s, 0) <==> HeaderPattern(s)
  {
    SearchHeaderSound(s, 0);
  }

  // ---------------------------------------------------------------------------
  // Item scan
  // ---------------------------------------------------------------------------

  /** `\d+\.` matches at `i`: the maximal digit run at `i` is non-empty and is
      followed by a full stop. */
  predicate ItemAt(s: string, i: nat) {
    i < |s| && IsDigit(s[i]) && DigitsEnd(s, i) < |s| && s[DigitsEnd(s, i)] == '.'
  }

  /** A digit run that stops at a non-digit ends where `DigitsEnd` does. */
  lemma {:induction false} DigitRunEnd(s: string, i: nat, d: nat)
    requires i <= d < |s| && AllDigits(s[i..d]) && !IsDigit(s[d])
    ensures DigitsEnd(s, i) == d
    decreases d - i
  {
    if i < d {
      assert s[i..d][0] == s[i];
      assert s[i + 1..d] == s[i..d][1..];
      DigitRunEnd(s, i + 1, d);
    }
  }

  /** Backtracking `\d+` cannot change the outcome either: the only digit run
      that a full stop can follow is the maximal one. */
  lemma ItemAtSound(s: string, i: nat)
    ensures ItemAt(s, i) <==> exists d :: i < d < |s| && AllDigits(s[i..d]) && s[d] == '.'
  {
    if i < |s| {
      forall d | i < d < |s| && AllDigits(s[i..d]) && s[d] == '.'
        ensures ItemAt(s, i)
      {
        assert s[i..d][0] == s[i];
        DigitRunEnd(s, i, d);
      }
    }
  }

  /** Where the capture `(.*)` of the item at `i` begins: after `\s*`. */
  function CaptureStart(s: string, i: nat): (c: nat)
    requires ItemAt(s, i)
    ensures i < c <= |s|
  {
    SkipSpaces(s, DigitsEnd(s, i) + 1)
  }

  /** Where the item match at `i` ends, and the scan resumes. */
  function CaptureEnd(s: string, i: nat): (e: nat)
    requires ItemAt(s, i)
    ensures CaptureStart(s, i) <= e <= |s|
    ensures e == |s| || s[e] == '\n'
  {
    LineEnd(s, CaptureStart(s, i))
  }

  /** A line that stops at a newline or at the end ends where `LineEnd` does. */
  lemma {:induction false} LineRunEnd(s: string, i: nat, j: nat)
    requires i <= j <= |s| && '\n' !in s[i..j] && (j == |s| || s[j] == '\n')
    ensures LineEnd(s, i) == j
    decreases j - i
  {
    if i < j {
      assert s[i..j][0] == s[i];
      assert s[i + 1..j] == s[i..j][1..];
      LineRunEnd(s, i + 1, j);
    }
  }

  /** A single extracted line: no newline, and no leading whitespace. */
  predicate PlainLine(c: string) {
    '\n' !in c && (c == [] || !IsSpace(c[0]))
  }

  /** The text `(.*)` captures for the item at `i`: the rest of its line after
      the whitespace that follows the full stop (that whitespace may run over
      line breaks). */
  function Capture(s: string, i: nat): (c: string)
    requires ItemAt(s, i)
    ensures PlainLine(c)
    ensures |c| <= |s| - i
  {
    s[CaptureStart(s, i)..CaptureEnd(s, i)]
  }

  /** `re.findall`: every item capture found scanning from `pos`, in order. */
  function FindItems(s: string, pos: nat): (r: seq<string>)
    ensures forall k :: 0 <= k < |r| ==> PlainLine(r[k])
    decreases |s| - pos
  {
    if pos >= |s| then []
    else if ItemAt(s, pos) then [Capture(s, pos)] + FindItems(s, CaptureEnd(s, pos))
    else FindItems(s, pos + 1)
  }

  /** The scan reaches the first item at or after `pos` and captures it first. */
  lemma {:induction false} ScanReaches(s: string, pos: nat, i: nat)
    requires pos <= i && ItemAt(s, i)
    requires forall k :: pos <= k < i ==> !ItemAt(s, k)
    ensures FindItems(s, pos) == [Capture(s, i)] + FindItems(s, CaptureEnd(s, i))
    decreases i - pos
  {
    if pos < i {
      ScanReaches(s, pos + 1, i);
    }
  }

  /** With no item at or after `pos`, the scan finds nothing. */
  lemma {:induction false} ScanFindsNothing(s: string, pos: nat)
    requires forall k :: pos <= k ==> !ItemAt(s, k)
    ensures FindItems(s, pos) == []
    decreases |s| - pos
  {
    if pos < |s| {
      ScanFindsNothing(s, pos + 1);
    }
  }

  /** An item at or after `pos` means the scan finds at least one capture
      (possibly an earlier one whose line swallowed it). */
  lemma {:induction false} ScanFindsSome(s: string, pos: nat, p: nat)
    requires pos <= p && ItemAt(s, p)
    ensures |FindItems(s, pos)| >= 1
    decreases p - pos
  {
    if !ItemAt(s, pos) {
      ScanFindsSome(s, pos + 1, p);
    }
  }

  /** The `1.` of a header match is itself an item start. */
  lemma HeaderYieldsItem(s: string)
    requires HeaderPattern(s)
    ensures |FindItems(s, 0)| >= 1
  {
    var i: nat, k: nat, w: nat, j: nat :| HeaderMatch(s, i, k, w, j);
    assert s[w..w + 2] == "1.";
    assert s[w] == s[w..w + 2][0] && s[w + 1] == s[w..w + 2][1];
    assert DigitsEnd(s, w + 1) == w + 1;
    assert DigitsEnd(s, w) == w + 1;
    ScanFindsSome(s, 0, w);
  }

  // ---------------------------------------------------------------------------
  // extract_choices
  // ---------------------------------------------------------------------------

  /** `extract_choices(story_output)`: when the header regex matches anywhere,
      the first two item captures of the WHOLE text (not only of the header's
      section, whose group is never used); otherwise the fallback pair. A
      header match always yields at least one capture, so the result is never
      empty. */
  function ExtractChoices(s: string): (r: seq<string>)
    ensures 1 <= |r| <= 2
    ensures forall k :: 0 <= k < |r| ==> PlainLine(r[k])
    ensures !HeaderPattern(s) ==> r == Fallback
    ensures HeaderPattern(s) ==>
      var all := FindItems(s, 0);
      1 <= |r| && |r| == (if |all| < 2 then |all| else 2) && r == all[..|r|]
  {
    HeaderTestSound(s);
    if SearchHeader(s, 0) then
      var all := FindItems(s, 0);
      HeaderYieldsItem(s);
      if |all| < 2 then all else all[..2]
    else Fallback
  }

  /** With a header, the choices are the captures of the first item in the
      text and of the first item at or after the end of that one's line,
      wherever those stand relative to the header. */
  lemma FirstTwoItems(s: string, i1: nat, i2: nat)
    requires HeaderPattern(s)
    requires ItemAt(s, i1) && forall k :: 0 <= k < i1 ==> !ItemAt(s, k)
    requires CaptureEnd(s, i1) <= i2 && ItemAt(s, i2)
    requires forall k :: CaptureEnd(s, i1) <= k < i2 ==> !ItemAt(s, k)
    ensures ExtractChoices(s) == [Capture(s, i1), Capture(s, i2)]
  {
    FoundTwo(s, i1, i2);
    HeaderTakesTwo(s);
  }

  /** The scan's first two captures are those of the first item and of the
      first item after that one's line. */
  lemma FoundTwo(s: string, i1: nat, i2: nat)
    requires ItemAt(s, i1) && forall k :: 0 <= k < i1 ==> !ItemAt(s, k)
    requires CaptureEnd(s, i1) <= i2 && ItemAt(s, i2)
    requires forall k :: CaptureEnd(s, i1) <= k < i2 ==> !ItemAt(s, k)
    ensures |FindItems(s, 0)| >= 2
    ensures FindItems(s, 0)[0] == Capture(s, i1) && FindItems(s, 0)[1] == Capture(s, i2)
  {
    ScanReaches(s, 0, i1);
    ScanReaches(s, CaptureEnd(s, i1), i2);
  }

  /** With a header and at least two captures, the choices are the first two. */
  lemma HeaderTakesTwo(s: string)
    requires HeaderPattern(s) && |FindItems(s, 0)| >= 2
    ensures ExtractChoices(s) == [FindItems(s, 0)[0], FindItems(s, 0)[1]]
  {
    var all := FindItems(s, 0);
    assert all[..2] == [all[0], all[1]];
  }

  /** With a header but no item after the first one's line, only one choice is
      returned. */
  lemma SingleItem(s: string, i1: nat)
    requires HeaderPattern(s)
    requires ItemAt(s, i1) && forall k :: 0 <= k < i1 ==> !ItemAt(s, k)
    requires forall k :: CaptureEnd(s, i1) <= k ==> !ItemAt(s, k)
    ensures ExtractChoices(s) == [Capture(s, i1)]
  {
    ScanReaches(s, 0, i1);
    ScanFindsNothing(s, CaptureEnd(s, i1));
  }
}
