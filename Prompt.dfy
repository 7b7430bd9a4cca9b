/** The prompt that `generate_story_segment` in storybook.py sends to the text
    model: a fixed template with five values interpolated. The chat-completion
    call around it is not part of this model. */
module Prompt {
  import opened Text

  // The fixed pieces of the template, in order. Every line of the
  // triple-quoted literal keeps its four-space indentation.
  const Intro: string :=
    "\n    You are a friendly storytelling assistant for children with autism.\n"
    + "    Create a short, simple, interactive story with gentle social lessons.\n"
  const CharacterLabel: string := "\n    Character: "
  const SidekickLabel: string := "\n    Sidekick: "
  const SettingLabel: string := "\n    Setting: "
  const ProgressLabel: string := "\n    Story progress so far: "
  const ChoiceLabel: string := "\n    Child's last choice: "
  const FormatHead: string :=
    "\n\n    Output format:\n"
    + "    1. Story Segment (3\U{2013}4 sentences)\n"
    + "    2. Choices (numbered, simple phrasing, "
  /** The directive that asks the model for exactly two options. */
  const TwoOptions: string := "exactly 2 options"
  const FormatTail: string := ")\n    3. Encouragement/Feedback (1 supportive line)\n    "
  const OutputFormat: string := FormatHead + TwoOptions + FormatTail

  /** The f-string of `generate_story_segment`: the introduction, one labelled
      line per value, then the output-format directive. */
  function BuildPrompt(character: string, sidekick: string, setting: string, progress: string, choice: string): string {
    Intro + (CharacterLabel + character) + (SidekickLabel + sidekick) + (SettingLabel + setting)
    + (ProgressLabel + progress) + (ChoiceLabel + choice) + FormatHead + TwoOptions + FormatTail
  }

  /** A piece followed by one that starts with a newline ends its line. */
  lemma EndsLine(a: string, f: string, g: string)
    requires |g| > 0 && g[0] == '\n'
    ensures OccursAt(a + f + g, f + "\n", |a|)
  {
    var x := a + f + g;
    assert x[|a|..|a| + |f| + 1] == f + "\n" by {
      assert x[|a|..|a| + |f| + 1] == x[|a|..|a| + |f|] + [x[|a| + |f|]];
      assert x[|a|..|a| + |f|] == f;
    }
  }

  /** The five labelled values appear in the prompt in this order, each one
      ending its own line, and the output-format directive after them asks
      for exactly two options. */
  lemma PromptFieldsInOrder(character: string, sidekick: string, setting: string, progress: string, choice: string)
    ensures var p := BuildPrompt(character, sidekick, setting, progress, choice);
      exists i1: nat, i2: nat, i3: nat, i4: nat, i5: nat, i6: nat ::
        OccursAt(p, CharacterLabel + character + "\n", i1)
        && i1 + |CharacterLabel + character| <= i2 && OccursAt(p, SidekickLabel + sidekick + "\n", i2)
        && i2 + |SidekickLabel + sidekick| <= i3 && OccursAt(p, SettingLabel + setting + "\n", i3)
        && i3 + |SettingLabel + setting| <= i4 && OccursAt(p, ProgressLabel + progress + "\n", i4)
        && i4 + |ProgressLabel + progress| <= i5 && OccursAt(p, ChoiceLabel + choice + "\n", i5)
        && i5 + |ChoiceLabel + choice| <= i6 && OccursAt(p, TwoOptions, i6)
  {
    var i1 := |Intro|;
    var i2 := i1 + |CharacterLabel + character|;
    var i3 := i2 + |SidekickLabel + sidekick|;
    var i4 := i3 + |SettingLabel + setting|;
    var i5 := i4 + |ProgressLabel + progress|;
    var i6 := i5 + |ChoiceLabel + choice| + |FormatHead|;
    PromptLines(character, sidekick, setting, progress, choice);
    assert i6 == |Intro + (CharacterLabel + character) + (SidekickLabel + sidekick) + (SettingLabel + setting)
      + (ProgressLabel + progress) + (ChoiceLabel + choice) + FormatHead|;
  }

  lemma PromptLines(character: string, sidekick: string, setting: string, progress: string, choice: string)
    ensures var p := BuildPrompt(character, sidekick, setting, progress, choice);
      var p1 := Intro + (CharacterLabel + character);
      var p2 := p1 + (SidekickLabel + sidekick);
      var p3 := p2 + (SettingLabel + setting);
      var p4 := p3 + (ProgressLabel + progress);
      var p6 := p4 + (ChoiceLabel + choice) + FormatHead;
      OccursAt(p, CharacterLabel + character + "\n", |Intro|) && OccursAt(p, SidekickLabel + sidekick + "\n", |p1|)
      && OccursAt(p, SettingLabel + setting + "\n", |p2|) && OccursAt(p, ProgressLabel + progress + "\n", |p3|)
      && OccursAt(p, ChoiceLabel + choice + "\n", |p4|) && OccursAt(p, TwoOptions, |p6|)
  {
    var f1, f2, f3 := CharacterLabel + character, SidekickLabel + sidekick, SettingLabel + setting;
    var f4, f5 := ProgressLabel + progress, ChoiceLabel + choice;
    var p := BuildPrompt(character, sidekick, setting, progress, choice);
    var p1 := Intro + f1;
    var p2 := p1 + f2;
    var p3 := p2 + f3;
    var p4 := p3 + f4;
    var p5 := p4 + f5;
    var p6 := p5 + FormatHead;
    var p7 := p6 + TwoOptions;
    assert p == p7 + FormatTail;
    assert f2[0] == '\n' && f3[0] == '\n' && f4[0] == '\n' && f5[0] == '\n' && FormatHead[0] == '\n';

    EndsLine(Intro, f1, f2);
    OccursExtended(p2, f1 + "\n", |Intro|, f3);
    OccursExtended(p3, f1 + "\n", |Intro|, f4);
    OccursExtended(p4, f1 + "\n", |Intro|, f5);
    OccursExtended(p5, f1 + "\n", |Intro|, FormatHead);
    OccursExtended(p6, f1 + "\n", |Intro|, TwoOptions);
    OccursExtended(p7, f1 + "\n", |Intro|, FormatTail);

    EndsLine(p1, f2, f3);
    OccursExtended(p3, f2 + "\n", |p1|, f4);
    OccursExtended(p4, f2 + "\n", |p1|, f5);
    OccursExtended(p5, f2 + "\n", |p1|, FormatHead);
    OccursExtended(p6, f2 + "\n", |p1|, TwoOptions);
    OccursExtended(p7, f2 + "\n", |p1|, FormatTail);

    EndsLine(p2, f3, f4);
    OccursExtended(p4, f3 + "\n", |p2|, f5);
    OccursExtended(p5, f3 + "\n", |p2|, FormatHead);
    OccursExtended(p6, f3 + "\n", |p2|, TwoOptions);
    OccursExtended(p7, f3 + "\n", |p2|, FormatTail);

    EndsLine(p3, f4, f5);
    OccursExtended(p5, f4 + "\n", |p3|, FormatHead);
    OccursExtended(p6, f4 + "\n", |p3|, TwoOptions);
    OccursExtended(p7, f4 + "\n", |p3|, FormatTail);

    EndsLine(p4, f5, FormatHead);
    OccursExtended(p6, f5 + "\n", |p4|, TwoOptions);
    OccursExtended(p7, f5 + "\n", |p4|, FormatTail);

    OccursAtEnd(p6, TwoOptions);
    OccursExtended(p7, TwoOptions, |p6|, FormatTail);

    assert OccursAt(p, f1 + "\n", |Intro|) && OccursAt(p, f2 + "\n", |p1|) && OccursAt(p, f3 + "\n", |p2|)
      && OccursAt(p, f4 + "\n", |p3|) && OccursAt(p, f5 + "\n", |p4|) && OccursAt(p, TwoOptions, |p6|);
  }

  /** Everything after the last value is the same fixed directive whatever
      the five values are. */
  lemma PromptEndsWithFormat(character: string, sidekick: string, setting: string, progress: string, choice: string)
    ensures var p := BuildPrompt(character, sidekick, setting, progress, choice);
      |p| >= |OutputFormat| && p[|p| - |OutputFormat|..] == OutputFormat
  {
    var p := BuildPrompt(character, sidekick, setting, progress, choice);
    var q := Intro + (CharacterLabel + character) + (SidekickLabel + sidekick) + (SettingLabel + setting)
      + (ProgressLabel + progress) + (ChoiceLabel + choice);
    assert p == q + FormatHead + TwoOptions + FormatTail;
    assert p[|q|..] == FormatHead + TwoOptions + FormatTail;
  }
}
