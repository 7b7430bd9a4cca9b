/** Character classes and small scanners shared by the choice extractor and the
    PDF layout. Python's `\d` is Unicode-aware; this model uses its ASCII
    subset. */
module Text {

  datatype Option<T> = None | Some(value: T)

  /** The characters for which Python's `str.isspace()` holds, which are what
      `\s` matches in a `str` pattern and what `str.strip()` removes: the
      ASCII controls tab to carriage return and the file, group, record and
      unit separators, the space, and the Unicode spaces and line and
      paragraph separators. */
  predicate IsSpace(c: char) {
    ('\t' <= c <= '\r') || ('\U{001C}' <= c <= ' ')
    || c == '\U{0085}' || c == '\U{00A0}' || c == '\U{1680}'
    || ('\U{2000}' <= c <= '\U{200A}') || c == '\U{2028}' || c == '\U{2029}'
    || c == '\U{202F}' || c == '\U{205F}' || c == '\U{3000}'
  }

  /** ASCII decimal digit: what `\d` matches, restricted to ASCII. */
  predicate IsDigit(c: char) {
    '0' <= c <= '9'
  }

  predicate AllSpace(s: string) {
    forall k :: 0 <= k < |s| ==> IsSpace(s[k])
  }

  predicate AllDigits(s: string) {
    forall k :: 0 <= k < |s| ==> IsDigit(s[k])
  }

  /** `t` occurs in `s` starting at index `i`. */
  predicate OccursAt(s: string, t: string, i: nat) {
    i + |t| <= |s| && s[i..i + |t|] == t
  }

  lemma OccursAtEnd(a: string, t: string)
    ensures OccursAt(a + t, t, |a|)
  {
    assert (a + t)[|a|..|a| + |t|] == t;
  }

  lemma OccursExtended(x: string, t: string, i: nat, y: string)
    requires OccursAt(x, t, i)
    ensures OccursAt(x + y, t, i)
  {
    assert (x + y)[i..i + |t|] == x[i..i + |t|];
  }

  lemma PrefixExtended(x: string, t: string, y: string)
    requires |t| <= |x| && x[..|t|] == t
    ensures (x + y)[..|t|] == t
  {
    assert (x + y)[..|t|] == x[..|t|];
  }

  /** The `n`-th character of an occurrence of `t` is `t[n]`. */
  lemma CharAt(s: string, t: string, i: nat, n: nat)
    requires OccursAt(s, t, i) && n < |t|
    ensures s[i + n] == t[n]
  {
    assert s[i..i + |t|][n] == s[i + n];
  }

  lemma CharsOf(s: string, t: string, i: nat)
    requires OccursAt(s, t, i)
    ensures forall n :: 0 <= n < |t| ==> s[i + n] == t[n]
  {
    forall n | 0 <= n < |t| ensures s[i + n] == t[n] {
      CharAt(s, t, i, n);
    }
  }

  lemma SliceOf(s: string, t: string, i: nat, lo: nat, hi: nat)
    requires OccursAt(s, t, i) && lo <= hi <= |t|
    ensures OccursAt(s, t[lo..hi], i + lo)
  {
    var u := s[i..i + |t|];
    forall n | 0 <= n < hi - lo ensures s[i + lo..i + hi][n] == t[lo..hi][n] {
      assert u[lo + n] == s[i + lo + n];
    }
  }

  /** End of the maximal whitespace run that starts at `i` (a greedy `\s*`). */
  function SkipSpaces(s: string, i: nat): (j: nat)
    requires i <= |s|
    ensures i <= j <= |s|
    ensures AllSpace(s[i..j])
    ensures j == |s| || !IsSpace(s[j])
    decreases |s| - i
  {
    if i == |s| || !IsSpace(s[i]) then i
    else
      var j := SkipSpaces(s, i + 1);
      assert s[i..j] == [s[i]] + s[i + 1..j];
      j
  }

  /** End of the maximal digit run that starts at `i` (a greedy `\d+` once one digit is seen). */
  function DigitsEnd(s: string, i: nat): (j: nat)
    requires i <= |s|
    ensures i <= j <= |s|
    ensures AllDigits(s[i..j])
    ensures j == |s| || !IsDigit(s[j])
    decreases |s| - i
  {
    if i == |s| || !IsDigit(s[i]) then i
    else
      var j := DigitsEnd(s, i + 1);
      assert s[i..j] == [s[i]] + s[i + 1..j];
      j
  }

  /** Index of the first newline at or after `i`, or `|s|`: where a `.*` without DOTALL stops. */
  function LineEnd(s: string, i: nat): (j: nat)
    requires i <= |s|
    ensures i <= j <= |s|
    ensures '\n' !in s[i..j]
    ensures j == |s| || s[j] == '\n'
    decreases |s| - i
  {
    if i == |s| || s[i] == '\n' then i
    else
      var j := LineEnd(s, i + 1);
      assert s[i..j] == [s[i]] + s[i + 1..j];
      j
  }

  /** Start of the trailing whitespace run of `s[lo..hi]`. */
  function TrimEnd(s: string, lo: nat, hi: nat): (j: nat)
    requires lo <= hi <= |s|
    ensures lo <= j <= hi
    ensures AllSpace(s[j..hi])
    ensures j == lo || !IsSpace(s[j - 1])
    decreases hi
  {
    if hi == lo || !IsSpace(s[hi - 1]) then hi
    else
      var j := TrimEnd(s, lo, hi - 1);
      assert s[j..hi] == s[j..hi - 1] + [s[hi - 1]];
      j
  }

  lemma StripEnds(s: string, i: nat, j: nat)
    requires i <= j <= |s| && AllSpace(s[0..i]) && AllSpace(s[j..|s|])
    requires i == |s| || !IsSpace(s[i])
    requires j == i || !IsSpace(s[j - 1])
    ensures AllSpace(s[..i]) && AllSpace(s[j..])
    ensures s[i..j] == [] || (!IsSpace(s[i..j][0]) && !IsSpace(s[i..j][j - i - 1]))
  {
    assert s[..i] == s[0..i];
    assert s[j..] == s[j..|s|];
  }

  /** Python's `str.strip()` with no argument: `s` without its leading and
      trailing whitespace. */
  function Strip(s: string): (r: string)
    ensures exists i, j :: 0 <= i <= j <= |s| && r == s[i..j] && AllSpace(s[..i]) && AllSpace(s[j..])
    ensures r == [] || (!IsSpace(r[0]) && !IsSpace(r[|r| - 1]))
  {
    var i := SkipSpaces(s, 0);
    var j := TrimEnd(s, i, |s|);
    StripEnds(s, i, j);
    s[i..j]
  }

  /** Python's `s.split(sep)` for a one-character separator. */
  function Split(s: string, sep: char): (pieces: seq<string>)
    ensures |pieces| >= 1
    ensures forall k :: 0 <= k < |pieces| ==> sep !in pieces[k]
    decreases |s|
  {
    if |s| == 0 then [""]
    else
      var rest := Split(s[1..], sep);
      if s[0] == sep then [""] + rest
      else [[s[0]] + rest[0]] + rest[1..]
  }

  /** `sep.join(pieces)`. */
  function Join(pieces: seq<string>, sep: char): string
    decreases |pieces|
  {
    if |pieces| == 0 then ""
    else if |pieces| == 1 then pieces[0]
    else pieces[0] + [sep] + Join(pieces[1..], sep)
  }

  /** Number of occurrences of `c` in `s`. */
  function Count(s: string, c: char): nat
    decreases |s|
  {
    if |s| == 0 then 0 else (if s[0] == c then 1 else 0) + Count(s[1..], c)
  }

  /** Joining the pieces of a split with the separator gives back the text. */
  lemma {:induction false} JoinSplit(s: string, sep: char)
    ensures Join(Split(s, sep), sep) == s
    decreases |s|
  {
    if |s| > 0 {
      JoinSplit(s[1..], sep);
      var rest := Split(s[1..], sep);
      if s[0] == sep {
        assert Split(s, sep) == [""] + rest;
        assert ([""] + rest)[1..] == rest;
      } else {
        var pieces := [[s[0]] + rest[0]] + rest[1..];
        assert Split(s, sep) == pieces;
        if |rest| > 1 {
          assert pieces[1..] == rest[1..];
          assert Join(rest, sep) == rest[0] + [sep] + Join(rest[1..], sep);
        }
      }
      assert s == [s[0]] + s[1..];
    }
  }

  /** A split has one more piece than the text has separators. */
  lemma {:induction false} SplitCount(s: string, sep: char)
    ensures |Split(s, sep)| == Count(s, sep) + 1
    decreases |s|
  {
    if |s| > 0 {
      SplitCount(s[1..], sep);
    }
  }
}
