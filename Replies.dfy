/** How the choice extractor reads replies laid out the way the prompt asks,
    and two layouts where its whole-text item scan gives something else. */
module Replies {
  import opened Text
  import opened Choices

  /** A numbered line `<digit>. c` at `i` whose text `c` runs to the end of
      the line is an item capturing exactly `c`. */
  lemma NumberedLine(s: string, i: nat, c: string)
    requires i + 3 <= |s| && IsDigit(s[i]) && s[i + 1] == '.' && s[i + 2] == ' '
    requires OccursAt(s, c, i + 3) && c != [] && '\n' !in c && !IsSpace(c[0])
    requires i + 3 + |c| == |s| || s[i + 3 + |c|] == '\n'
    ensures ItemAt(s, i) && CaptureEnd(s, i) == i + 3 + |c| && Capture(s, i) == c
  {
    var e := i + 3 + |c|;
    assert s[i + 1..i + 1] == [];
    DigitRunEnd(s, i, i + 1);
    assert s[i + 3] == s[i + 3..e][0];
    assert s[i + 2..i + 3] == [' '];
    SpaceRunEnd(s, i + 2, i + 3);
    LineRunEnd(s, i + 3, e);
  }

  lemma ReplyHeader(s: string, p: nat, e1: nat)
    requires OccursAt(s, "Choices:\n1. ", p) && OccursAt(s, "\n2. ", e1) && p + 12 <= e1
    ensures HeaderMatch(s, p, p + 8, p + 9, e1) && HeaderPattern(s)
  {
    var h, m := "Choices:\n1. ", "\n2. ";
    SliceOf(s, h, p, 0, 8);
    SliceOf(s, h, p, 8, 9);
    SliceOf(s, h, p, 9, 11);
    SliceOf(s, m, e1, 0, 3);
    assert h[0..8] == "Choices:" && h[8..9] == "\n" && h[9..11] == "1." && m[0..3] == "\n2.";
    assert HeaderMatch(s, p, p + 8, p + 9, e1);
  }

  /** No item starts before `p + n` when no digit precedes `p` and the first
      `n` characters of the text `t` found at `p` are not digits. */
  lemma NoItemBefore(s: string, t: string, p: nat, n: nat)
    requires OccursAt(s, t, p) && n <= |t|
    requires forall k :: 0 <= k < p ==> !IsDigit(s[k])
    requires forall k :: 0 <= k < n ==> !IsDigit(t[k])
    ensures forall k :: 0 <= k < p + n ==> !ItemAt(s, k)
  {
    CharsOf(s, t, p);
    forall k | p <= k < p + n ensures !IsDigit(s[k]) {
      assert s[k] == t[k - p];
    }
  }

  lemma HeaderChars(s: string, p: nat)
    requires OccursAt(s, "Choices:\n1. ", p)
    ensures IsDigit(s[p + 9]) && s[p + 10] == '.' && s[p + 11] == ' '
  {
    CharsOf(s, "Choices:\n1. ", p);
  }

  lemma SecondChars(s: string, e: nat)
    requires OccursAt(s, "\n2. ", e)
    ensures s[e] == '\n' && IsDigit(s[e + 1]) && s[e + 2] == '.' && s[e + 3] == ' '
  {
    CharsOf(s, "\n2. ", e);
  }

  /** The choices of a text laid out as a well-formed reply, stated on
      positions: no digit before the header at `p`, the first choice `a`
      after `Choices:\n1. `, the second choice `b` after `\n2. `, then the
      end of the text or a line break. */
  lemma ReplyChoices(s: string, p: nat, a: string, b: string)
    requires OccursAt(s, "Choices:\n1. ", p) && OccursAt(s, a, p + 12)
    requires OccursAt(s, "\n2. ", p + 12 + |a|) && OccursAt(s, b, p + 16 + |a|)
    requires forall k :: 0 <= k < p ==> !IsDigit(s[k])
    requires a != [] && '\n' !in a && !IsSpace(a[0])
    requires b != [] && '\n' !in b && !IsSpace(b[0])
    requires var e2 := p + 16 + |a| + |b|; e2 == |s| || s[e2] == '\n'
    ensures ExtractChoices(s) == [a, b]
  {
    var e1 := p + 12 + |a|;
    ReplyHeader(s, p, e1);
    NoItemBefore(s, "Choices:\n1. ", p, 9);
    HeaderChars(s, p);
    SecondChars(s, e1);
    ReplyLines(s, p, a, b);
    HeaderTakesTwo(s);
  }

  /** Two numbered lines given character by character, the first at `p + 9`
      and nothing an item before it: the scan captures their texts first. */
  lemma ReplyLines(s: string, p: nat, a: string, b: string)
    requires forall k :: 0 <= k < p + 9 ==> !ItemAt(s, k)
    requires p + 12 <= |s| && IsDigit(s[p + 9]) && s[p + 10] == '.' && s[p + 11] == ' '
    requires a != [] && '\n' !in a && !IsSpace(a[0]) && OccursAt(s, a, p + 12)
    requires var e1 := p + 12 + |a|;
      e1 + 4 <= |s| && s[e1] == '\n' && IsDigit(s[e1 + 1]) && s[e1 + 2] == '.' && s[e1 + 3] == ' '
    requires b != [] && '\n' !in b && !IsSpace(b[0]) && OccursAt(s, b, p + 16 + |a|)
    requires var e2 := p + 16 + |a| + |b|; e2 == |s| || s[e2] == '\n'
    ensures |FindItems(s, 0)| >= 2 && FindItems(s, 0)[0] == a && FindItems(s, 0)[1] == b
  {
    var i1, e1 := p + 9, p + 12 + |a|;
    NumberedLine(s, i1, a);
    NumberedLine(s, e1 + 1, b);
    assert !IsDigit(s[e1]);
    forall k | e1 <= k < e1 + 1 ensures !ItemAt(s, k) {
      assert k == e1;
    }
    FoundTwo(s, i1, e1 + 1);
    assert FindItems(s, 0)[0] == Capture(s, i1) == a;
    assert FindItems(s, 0)[1] == Capture(s, e1 + 1) == b;
  }

  /** The reply layout the prompt asks for: any text without digits, the
      header, and two numbered lines, the second followed by the end of the
      text or a line break. Whatever comes after (more numbered options, the
      feedback line) is ignored, and the two choices are exactly the texts
      written after `1. ` and `2. `. */
  lemma WellFormedReply(pre: string, a: string, b: string, post: string)
    requires forall k :: 0 <= k < |pre| ==> !IsDigit(pre[k])
    requires a != [] && '\n' !in a && !IsSpace(a[0])
    requires b != [] && '\n' !in b && !IsSpace(b[0])
    requires post == [] || post[0] == '\n'
    ensures ExtractChoices(pre + "Choices:\n1. " + a + "\n2. " + b + post) == [a, b]
  {
    var h, m := "Choices:\n1. ", "\n2. ";
    var q1 := pre + h;
    var q2 := q1 + a;
    var q3 := q2 + m;
    var q4 := q3 + b;
    var s := q4 + post;
    assert q1[..|pre|] == pre;
    PrefixExtended(q1, pre, a);
    PrefixExtended(q2, pre, m);
    PrefixExtended(q3, pre, b);
    PrefixExtended(q4, pre, post);
    OccursAtEnd(pre, h);
    OccursExtended(q1, h, |pre|, a);
    OccursExtended(q2, h, |pre|, m);
    OccursExtended(q3, h, |pre|, b);
    OccursExtended(q4, h, |pre|, post);
    OccursAtEnd(q1, a);
    OccursExtended(q2, a, |q1|, m);
    OccursExtended(q3, a, |q1|, b);
    OccursExtended(q4, a, |q1|, post);
    OccursAtEnd(q2, m);
    OccursExtended(q3, m, |q2|, b);
    OccursExtended(q4, m, |q2|, post);
    OccursAtEnd(q3, b);
    OccursExtended(q4, b, |q3|, post);
    if post != [] {
      OccursAtEnd(q4, post);
      assert s[|q4|] == s[|q4|..|q4| + |post|][0];
    }
    forall k | 0 <= k < |pre| ensures !IsDigit(s[k]) {
      assert s[k] == s[..|pre|][k];
    }
    ReplyChoices(s, |pre|, a, b);
  }

  // ---------------------------------------------------------------------------
  // Layouts the item scan reads differently from the header
  // ---------------------------------------------------------------------------

  /** Positional form of `ItemBeforeHeader`. */
  lemma ItemBeforeHeaderAt(s: string, x: string, a: string)
    requires x != [] && '\n' !in x && !IsSpace(x[0])
    requires a != [] && '\n' !in a && !IsSpace(a[0])
    requires OccursAt(s, "1. ", 0) && OccursAt(s, x, 3) && OccursAt(s, "\nChoices:\n1. ", 3 + |x|)
    requires OccursAt(s, a, 16 + |x|) && OccursAt(s, "\n2. ", 16 + |x| + |a|)
    ensures ExtractChoices(s) == [x, a]
  {
    var v := "\nChoices:\n1. ";
    var e0 := 3 + |x|;
    var p := e0 + 1;
    var e1 := p + 12 + |a|;
    SliceOf(s, v, e0, 1, 13);
    assert v[1..13] == "Choices:\n1. ";
    ReplyHeader(s, p, e1);
    HeaderChars(s, p);
    SecondChars(s, e1);
    ItemBeforeHeaderLines(s, x, a);
    HeaderTakesTwo(s);
  }

  lemma ItemBeforeHeaderLines(s: string, x: string, a: string)
    requires x != [] && '\n' !in x && !IsSpace(x[0])
    requires a != [] && '\n' !in a && !IsSpace(a[0])
    requires OccursAt(s, "1. ", 0) && OccursAt(s, x, 3) && OccursAt(s, "\nChoices:\n1. ", 3 + |x|)
    requires OccursAt(s, a, 16 + |x|) && 16 + |x| + |a| < |s| && s[16 + |x| + |a|] == '\n'
    ensures |FindItems(s, 0)| >= 2 && FindItems(s, 0)[0] == x && FindItems(s, 0)[1] == a
  {
    var v := "\nChoices:\n1. ";
    var e0 := 3 + |x|;
    CharsOf(s, "1. ", 0);
    CharsOf(s, v, e0);
    NumberedLine(s, 0, x);
    NumberedLine(s, e0 + 10, a);
    forall k | e0 <= k < e0 + 10 ensures !ItemAt(s, k) {
      assert s[k] == v[k - e0];
    }
    FoundTwo(s, 0, e0 + 10);
    assert FindItems(s, 0)[0] == Capture(s, 0) == x;
    assert FindItems(s, 0)[1] == Capture(s, e0 + 10) == a;
  }

  /** A numbered line before the header is taken as the first choice, and
      the header's own `1.` line as the second: the item scan runs over the
      whole text, not over the header's section. The text after `2. ` does
      not matter. */
  lemma ItemBeforeHeader(x: string, a: string, b: string)
    requires x != [] && '\n' !in x && !IsSpace(x[0])
    requires a != [] && '\n' !in a && !IsSpace(a[0])
    ensures ExtractChoices("1. " + x + "\nChoices:\n1. " + a + "\n2. " + b) == [x, a]
  {
    var u, v, m := "1. ", "\nChoices:\n1. ", "\n2. ";
    var q1 := u + x;
    var q2 := q1 + v;
    var q3 := q2 + a;
    var q4 := q3 + m;
    var s := q4 + b;
    assert q1[..3] == u;
    OccursExtended(q1, u, 0, v);
    OccursExtended(q2, u, 0, a);
    OccursExtended(q3, u, 0, m);
    OccursExtended(q4, u, 0, b);
    OccursAtEnd(u, x);
    OccursExtended(q1, x, 3, v);
    OccursExtended(q2, x, 3, a);
    OccursExtended(q3, x, 3, m);
    OccursExtended(q4, x, 3, b);
    OccursAtEnd(q1, v);
    OccursExtended(q2, v, |q1|, a);
    OccursExtended(q3, v, |q1|, m);
    OccursExtended(q4, v, |q1|, b);
    OccursAtEnd(q2, a);
    OccursExtended(q3, a, |q2|, m);
    OccursExtended(q4, a, |q2|, b);
    OccursAtEnd(q3, m);
    OccursExtended(q4, m, |q3|, b);
    ItemBeforeHeaderAt(s, x, a);
  }

  /** The header `Choices: 1.` with nothing after the full stop and `2. ...`
      on the next line. */
  lemma EmptyHeader(s: string, p: nat)
    requires OccursAt(s, "Choices: 1.\n2. ", p)
    ensures HeaderPattern(s)
  {
    var t := "Choices: 1.\n2. ";
    SliceOf(s, t, p, 0, 8);
    SliceOf(s, t, p, 8, 9);
    SliceOf(s, t, p, 9, 11);
    SliceOf(s, t, p, 11, 14);
    assert t[0..8] == "Choices:";
    assert t[8..9] == " ";
    assert t[9..11] == "1.";
    assert t[11..14] == "\n2.";
    assert HeaderMatch(s, p, p + 8, p + 9, p + 11);
  }

  /** The `1.` of that header is an item whose whitespace runs over the line
      break, so its capture is the whole next line. */
  lemma EmptyItem(s: string, p: nat, b: string)
    requires OccursAt(s, "Choices: 1.\n2. ", p) && OccursAt(s, b, p + 15) && p + 15 + |b| == |s|
    requires '\n' !in b
    ensures ItemAt(s, p + 9) && CaptureEnd(s, p + 9) == |s| && Capture(s, p + 9) == "2. " + b
  {
    var t := "Choices: 1.\n2. ";
    CharsOf(s, t, p);
    assert s[p + 9] == t[9] && s[p + 10] == t[10] && s[p + 11] == t[11] && s[p + 12] == t[12];
    assert s[p + 9..p + 10] == [s[p + 9]];
    DigitRunEnd(s, p + 9, p + 10);
    assert s[p + 11..p + 12] == [s[p + 11]];
    SpaceRunEnd(s, p + 11, p + 12);
    SliceOf(s, t, p, 12, 15);
    assert t[12..15] == "2. ";
    assert s[p + 12..|s|] == s[p + 12..p + 15] + s[p + 15..|s|];
    LineRunEnd(s, p + 12, |s|);
  }

  /** When nothing follows `1.` on the header line, `\s*` runs over the line
      break and the first item captures the whole `2.` line, number
      included; no item is left after it, so a single choice is returned. */
  lemma EmptyFirstChoice(pre: string, b: string)
    requires forall k :: 0 <= k < |pre| ==> !IsDigit(pre[k])
    requires '\n' !in b
    ensures ExtractChoices(pre + "Choices: 1.\n2. " + b) == ["2. " + b]
  {
    var t := "Choices: 1.\n2. ";
    var q := pre + t;
    var s := q + b;
    var p := |pre|;
    assert q[..p] == pre;
    PrefixExtended(q, pre, b);
    OccursAtEnd(pre, t);
    OccursExtended(q, t, p, b);
    OccursAtEnd(q, b);
    forall k | 0 <= k < p ensures !IsDigit(s[k]) {
      assert s[k] == s[..p][k];
    }
    EmptyHeader(s, p);
    NoItemBefore(s, t, p, 9);
    EmptyItem(s, p, b);
    SingleItem(s, p + 9);
  }
}
