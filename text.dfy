/** The few Python string operations the pipeline uses, on `string` = `seq<char>`. */
module Text {

  predicate StartsWith(s: string, prefix: string) {
    |prefix| <= |s| && s[..|prefix|] == prefix
  }

  /** Python's `s.endswith(suffix)`. */
  predicate EndsWith(s: string, suffix: string) {
    |suffix| <= |s| && s[|s| - |suffix|..] == suffix
  }

  predicate OccursAt(s: string, pat: string, i: nat) {
    i + |pat| <= |s| && s[i..i + |pat|] == pat
  }

  predicate Contains(s: string, pat: string) {
    exists i: nat | i <= |s| :: OccursAt(s, pat, i)
  }

  /** A pattern whose first character occurs nowhere else in it cannot overlap itself. */
  predicate Borderless(pat: string) {
    |pat| > 0 && pat[0] !in pat[1..]
  }

  // ---------------------------------------------------------------------------
  // str.replace
  // ---------------------------------------------------------------------------

  /**
   * Python's `s.replace(pat, rep)`: every non-overlapping occurrence of `pat`,
   * found scanning from the left, is replaced by `rep`. Only a non-empty
   * pattern is used by the pipeline (".json").
   */
  function Replace(s: string, pat: string, rep: string): string
    requires |pat| > 0
    decreases |s|
  {
    if |s| < |pat| then s
    else if s[..|pat|] == pat then rep + Replace(s[|pat|..], pat, rep)
    else [s[0]] + Replace(s[1..], pat, rep)
  }

  /** Replacing introduces no character but those of the replacement. */
  lemma {:induction false} ReplaceChars(s: string, pat: string, rep: string, c: char)
    requires |pat| > 0
    requires c !in s && c !in rep
    ensures c !in Replace(s, pat, rep)
    decreases |s|
  {
    if |s| >= |pat| {
      if s[..|pat|] == pat {
        assert forall i :: |pat| <= i < |s| ==> s[|pat|..][i - |pat|] == s[i];
        ReplaceChars(s[|pat|..], pat, rep, c);
      } else {
        ReplaceChars(s[1..], pat, rep, c);
      }
    }
  }

  /** Text without the pattern is left unchanged. */
  lemma {:induction false} ReplaceAbsent(s: string, pat: string, rep: string)
    requires |pat| > 0
    requires !Contains(s, pat)
    ensures Replace(s, pat, rep) == s
    decreases |s|
  {
    if |s| >= |pat| {
      assert !OccursAt(s, pat, 0);
      assert s[..|pat|] != pat;
      if Contains(s[1..], pat) {
        var i: nat :| i <= |s[1..]| && OccursAt(s[1..], pat, i);
        assert s[i + 1..i + 1 + |pat|] == s[1..][i..i + |pat|];
        assert OccursAt(s, pat, i + 1);
        assert false;
      }
      ReplaceAbsent(s[1..], pat, rep);
      assert [s[0]] + s[1..] == s;
    }
  }

  /**
   * For a pattern whose first character does not recur, replacing is
   * compositional around any occurrence: the text before it, the occurrence
   * and the text after it are replaced independently. No occurrence can
   * straddle the boundaries, so every occurrence is replaced.
   */
  lemma ReplaceSplit(x: string, y: string, pat: string, rep: string)
    requires Borderless(pat)
    ensures Replace(x + pat + y, pat, rep) == Replace(x, pat, rep) + rep + Replace(y, pat, rep)
  {
    ReplaceBefore(x, y, pat, rep);
    assert x + pat + y == x + (pat + y);
    var a, b := Replace(x, pat, rep), Replace(y, pat, rep);
    assert a + (rep + b) == a + rep + b;
  }

  /** ReplaceSplit, grouped as the scan over x sees it: x, then what follows x. */
  lemma {:induction false} ReplaceBefore(x: string, y: string, pat: string, rep: string)
    requires Borderless(pat)
    ensures Replace(x + (pat + y), pat, rep) == Replace(x, pat, rep) + (rep + Replace(y, pat, rep))
    decreases |x|
  {
    var t, r := pat + y, rep + Replace(y, pat, rep);
    if x == [] {
      assert x + t == t && t[..|pat|] == pat && t[|pat|..] == y;
    } else if |x| >= |pat| && x[..|pat|] == pat {
      ReplaceBefore(x[|pat|..], y, pat, rep);
      ReplaceCopiesMatch(x, t, pat, rep, r);
    } else if |x| < |pat| {
      ReplaceBefore(x[1..], y, pat, rep);
      NoStraddle(x, pat, y);
      assert x + pat + y == x + t;
      ReplaceCopiesShort(x, t, pat, rep, r);
    } else {
      ReplaceBefore(x[1..], y, pat, rep);
      ReplaceCopiesSkip(x, t, pat, rep, r);
    }
  }

  /** The scan over `x + t` when x starts with the pattern: the occurrence is replaced. */
  lemma ReplaceCopiesMatch(x: string, t: string, pat: string, rep: string, r: string)
    requires |pat| > 0 && |pat| <= |x| && x[..|pat|] == pat
    requires Replace(x[|pat|..] + t, pat, rep) == Replace(x[|pat|..], pat, rep) + r
    ensures Replace(x + t, pat, rep) == Replace(x, pat, rep) + r
  {
    var s := x + t;
    assert s[..|pat|] == x[..|pat|];
    assert s[|pat|..] == x[|pat|..] + t;
    var a := Replace(x[|pat|..], pat, rep);
    assert Replace(x, pat, rep) == rep + a;
    assert Replace(s, pat, rep) == rep + (a + r);
  }

  /** The scan over `x + t` when x is long enough but does not start with the pattern. */
  lemma ReplaceCopiesSkip(x: string, t: string, pat: string, rep: string, r: string)
    requires |pat| > 0 && |pat| <= |x| && x[..|pat|] != pat
    requires Replace(x[1..] + t, pat, rep) == Replace(x[1..], pat, rep) + r
    ensures Replace(x + t, pat, rep) == Replace(x, pat, rep) + r
  {
    var s := x + t;
    assert s[..|pat|] == x[..|pat|];
    assert s[1..] == x[1..] + t;
    ReplaceCopies(x, pat, rep);
    ReplaceCopies(s, pat, rep);
  }

  /** The scan over `x + t` when x is shorter than the pattern and no occurrence straddles into t. */
  lemma ReplaceCopiesShort(x: string, t: string, pat: string, rep: string, r: string)
    requires |pat| > 0 && 0 < |x| < |pat| && |pat| <= |x + t| && (x + t)[..|pat|] != pat
    requires Replace(x[1..] + t, pat, rep) == Replace(x[1..], pat, rep) + r
    ensures Replace(x + t, pat, rep) == Replace(x, pat, rep) + r
  {
    var s := x + t;
    assert s[1..] == x[1..] + t;
    ReplaceCopies(s, pat, rep);
    assert Replace(x, pat, rep) == x && Replace(x[1..], pat, rep) == x[1..];
    assert [x[0]] + (x[1..] + r) == x + r;
  }

  /** Where the pattern does not start the text, its first character is copied. */
  lemma ReplaceCopies(s: string, pat: string, rep: string)
    requires |pat| > 0 && |pat| <= |s| && s[..|pat|] != pat
    ensures Replace(s, pat, rep) == [s[0]] + Replace(s[1..], pat, rep)
  {
  }

  /** A short non-empty text followed by a pattern whose first character does not recur does not start with it. */
  lemma NoStraddle(x: string, pat: string, y: string)
    requires Borderless(pat)
    requires 0 < |x| < |pat|
    ensures (x + pat + y)[..|pat|] != pat
  {
    var s := x + pat + y;
    assert pat[|x|] == pat[1..][|x| - 1];
    assert s[..|pat|][|x|] == pat[0] != pat[|x|];
  }

  /** A trailing occurrence is always replaced, whatever precedes it. */
  lemma ReplaceTrailing(x: string, pat: string, rep: string)
    requires Borderless(pat)
    ensures Replace(x + pat, pat, rep) == Replace(x, pat, rep) + rep
  {
    ReplaceSplit(x, [], pat, rep);
    assert x + pat + [] == x + pat;
  }

  // ---------------------------------------------------------------------------
  // str.split(sep)[-1]
  // ---------------------------------------------------------------------------

  /**
   * Python's `s.split(sep)[-1]`: the longest suffix of `s` that does not
   * contain `sep`. It is the whole of `s` when `sep` does not occur, and empty
   * when `s` ends with `sep`.
   */
  function LastSegment(s: string, sep: char): (seg: string)
    ensures sep !in seg
    ensures EndsWith(s, seg)
    ensures |seg| < |s| ==> s[|s| - |seg| - 1] == sep
  {
    if s == [] then []
    else if s[|s| - 1] == sep then []
    else
      var seg := LastSegment(s[..|s| - 1], sep) + [s[|s| - 1]];
      assert s[..|s| - 1][|s| - |seg|..] + [s[|s| - 1]] == s[|s| - |seg|..];
      seg
  }

  /** The three properties in LastSegment's contract determine the segment. */
  lemma LastSegmentUnique(s: string, sep: char, t: string)
    requires sep !in t && EndsWith(s, t)
    requires |t| == |s| || s[|s| - |t| - 1] == sep
    ensures LastSegment(s, sep) == t
  {
  }

  /** The segment after the final separator of a path. */
  lemma LastSegmentOfPath(dir: string, sep: char, name: string)
    requires dir == [] || dir[|dir| - 1] == sep
    requires sep !in name
    ensures LastSegment(dir + name, sep) == name
  {
    var s := dir + name;
    assert s[|s| - |name|..] == name;
    if |name| < |s| {
      assert s[|s| - |name| - 1] == dir[|dir| - 1];
    }
    LastSegmentUnique(s, sep, name);
  }

  /** A segment of a path ending in a suffix without the separator ends in that suffix too. */
  lemma SegmentKeepsSuffix(key: string, sep: char, suffix: string)
    requires EndsWith(key, suffix) && sep !in suffix
    ensures EndsWith(LastSegment(key, sep), suffix)
  {
    var seg := LastSegment(key, sep);
    assert seg[|seg| - |suffix|..] == key[|key| - |suffix|..];
  }

  /** Replacing in the last segment of a key ending in the pattern leaves the replacement at the end. */
  lemma SegmentReplaceTrailing(key: string, sep: char, pat: string, rep: string)
    requires Borderless(pat) && sep !in pat && EndsWith(key, pat)
    ensures EndsWith(Replace(LastSegment(key, sep), pat, rep), rep)
  {
    var seg := LastSegment(key, sep);
    SegmentKeepsSuffix(key, sep, pat);
    var y := seg[..|seg| - |pat|];
    assert seg == y + pat;
    ReplaceTrailing(y, pat, rep);
    var r := Replace(y, pat, rep);
    assert (r + rep)[|r + rep| - |rep|..] == rep;
  }

  /** The name in `dir/X<pat>`, X containing neither the separator nor the pattern, becomes `X<rep>`. */
  lemma SegmentReplaceName(dir: string, x: string, sep: char, pat: string, rep: string)
    requires dir == [] || dir[|dir| - 1] == sep
    requires Borderless(pat) && sep !in pat
    requires sep !in x && !Contains(x, pat)
    ensures Replace(LastSegment(dir + x + pat, sep), pat, rep) == x + rep
  {
    assert dir + x + pat == dir + (x + pat);
    LastSegmentOfPath(dir, sep, x + pat);
    ReplaceTrailing(x, pat, rep);
    ReplaceAbsent(x, pat, rep);
  }

  /** In the last segment of `dir/X<pat>Y`, X and Y are replaced independently around the occurrence. */
  lemma SegmentReplaceSplit(dir: string, x: string, y: string, sep: char, pat: string, rep: string)
    requires dir == [] || dir[|dir| - 1] == sep
    requires Borderless(pat) && sep !in pat
    requires sep !in x && sep !in y
    ensures Replace(LastSegment(dir + x + pat + y, sep), pat, rep) ==
            Replace(x, pat, rep) + rep + Replace(y, pat, rep)
  {
    var name := x + pat + y;
    assert sep !in name;
    assert dir + x + pat + y == dir + name;
    LastSegmentOfPath(dir, sep, name);
    ReplaceSplit(x, y, pat, rep);
  }

  // ---------------------------------------------------------------------------
  // str.lower
  // ---------------------------------------------------------------------------

  function LowerChar(c: char): char {
    if 'A' <= c <= 'Z' then (c as int - 'A' as int + 'a' as int) as char else c
  }

  /** Python's `s.lower()` restricted to the ASCII letters A-Z. */
  function Lower(s: string): (r: string)
    ensures |r| == |s|
    ensures forall i :: 0 <= i < |s| ==> r[i] == LowerChar(s[i])
  {
    seq(|s|, i requires 0 <= i < |s| => LowerChar(s[i]))
  }

  function UpperChar(c: char): char {
    if 'a' <= c <= 'z' then (c as int - 'a' as int + 'A' as int) as char else c
  }

  /** `s` spells the lower-case word `w` with any mixture of upper- and lower-case letters. */
  predicate CaseVariant(s: string, w: string) {
    |s| == |w| && forall i :: 0 <= i < |s| ==> s[i] == w[i] || s[i] == UpperChar(w[i])
  }

  /** The characters that lower-case to a letter are that letter and its capital. */
  lemma LowerCharOf(c: char, w: char)
    requires 'a' <= w <= 'z'
    ensures LowerChar(c) == w <==> c == w || c == UpperChar(w)
  {
  }

  /** Lower-casing yields a lower-case word exactly for the case variants of that word. */
  lemma LowerEqualsWord(s: string, w: string)
    requires forall i :: 0 <= i < |w| ==> 'a' <= w[i] <= 'z'
    ensures Lower(s) == w <==> CaseVariant(s, w)
  {
    if |s| == |w| {
      forall i | 0 <= i < |s|
        ensures LowerChar(s[i]) == w[i] <==> s[i] == w[i] || s[i] == UpperChar(w[i])
      {
        LowerCharOf(s[i], w[i]);
      }
      if CaseVariant(s, w) {
        assert Lower(s) == w;
      }
    }
  }
}
