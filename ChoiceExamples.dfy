/** Worked inputs for the choice extractor, each an instance of a general
    lemma of module Choices or Replies. */
module ChoiceExamples {
  import opened Text
  import opened Choices
  import opened Replies

  /** Without a capital `C` there is no `Choice:`, so no header: the fallback. */
  lemma FallbackWithoutKeyword(s: string)
    requires 'C' !in s
    ensures ExtractChoices(s) == Fallback
  {
    if HeaderPattern(s) {
      var i: nat, k: nat, w: nat, j: nat :| HeaderMatch(s, i, k, w, j);
      if OccursAt(s, "Choice:", i) {
        CharAt(s, "Choice:", i, 0);
      } else {
        CharAt(s, "Choices:", i, 0);
      }
      assert false;
    }
  }

  /** Without a `\n2.` there is no header either, however many other numbered
      lines there are. */
  lemma FallbackWithoutSecondItem(s: string)
    requires forall j :: !OccursAt(s, "\n2.", j)
    ensures ExtractChoices(s) == Fallback
  {
  }

  /** A text with no choices section at all. */
  lemma NoHeaderExample()
    ensures ExtractChoices("Just a story with no options.") == ["Option 1", "Option 2"]
  {
    FallbackWithoutKeyword("Just a story with no options.");
  }

  /** The keyword is case-sensitive. */
  lemma LowerCaseHeaderExample()
    ensures ExtractChoices("choices:\n1. Left\n2. Right") == ["Option 1", "Option 2"]
  {
    FallbackWithoutKeyword("choices:\n1. Left\n2. Right");
  }

  /** A header followed by a single numbered item gives the fallback. */
  lemma OneItemExample()
    ensures ExtractChoices("Choices:\n1. Left") == ["Option 1", "Option 2"]
  {
    var s := "Choices:\n1. Left";
    forall j: nat | OccursAt(s, "\n2.", j) ensures false {
      CharAt(s, "\n2.", j, 1);
    }
    FallbackWithoutSecondItem(s);
  }

  /** The reply shape the prompt asks for: a story line, the header, two
      choices and the feedback line (the text is written in its pieces). */
  lemma StoryReplyExample()
    ensures ExtractChoices("Once upon a time.\n" + "Choices:\n1. " + "Go left" + "\n2. " + "Go right" + "\nGreat job!")
      == ["Go left", "Go right"]
  {
    var pre := "Once upon a time.\n";
    forall k | 0 <= k < |pre| ensures !IsDigit(pre[k]) { }
    WellFormedReply(pre, "Go left", "Go right", "\nGreat job!");
  }

  /** Four numbered items: only the first two are kept. */
  lemma FourItemExample()
    ensures ExtractChoices("Choices:\n1. " + "A" + "\n2. " + "B" + "\n3. C\n4. D") == ["A", "B"]
  {
    WellFormedReply("", "A", "B", "\n3. C\n4. D");
    assert "" + "Choices:\n1. " == "Choices:\n1. ";
  }

  /** A numbered line before the header becomes the first choice. */
  lemma ItemBeforeHeaderExample()
    ensures ExtractChoices("1. " + "X" + "\nChoices:\n1. " + "A" + "\n2. " + "B") == ["X", "A"]
  {
    ItemBeforeHeader("X", "A", "B");
  }

  /** An empty first item swallows the next line: one choice, `2. B`. */
  lemma EmptyFirstItemExample()
    ensures ExtractChoices("Choices: 1.\n2. " + "B") == ["2. B"]
  {
    EmptyFirstChoice("", "B");
    assert "" + "Choices: 1.\n2. " == "Choices: 1.\n2. ";
    assert "2. " + "B" == "2. B";
  }
}
