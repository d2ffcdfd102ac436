// Substring tests on log text: Python's `pat in text` and
// `text.split(sep)[-1]`, with the facts about them the log checks rely on.
module Text {
  import opened Wrappers

  /** pat occurs in text starting at position i. */
  predicate OccursAt(text: string, pat: string, i: nat) {
    i + |pat| <= |text| && text[i..i + |pat|] == pat
  }

  /** Python's `pat in text`. */
  predicate Contains(text: string, pat: string) {
    exists i: nat | i <= |text| :: OccursAt(text, pat, i)
  }

  /** str.find from position from: the first occurrence at or after from. */
  function Find(text: string, pat: string, from: nat): (r: Option<nat>)
    ensures r.Some? ==> from <= r.value && OccursAt(text, pat, r.value)
    ensures r.Some? ==> forall j: nat :: from <= j < r.value ==> !OccursAt(text, pat, j)
    ensures r.None? ==> forall j: nat :: from <= j ==> !OccursAt(text, pat, j)
    decreases |text| - from
  {
    if from + |pat| > |text| then None
    else if text[from..from + |pat|] == pat then Some(from)
    else Find(text, pat, from + 1)
  }

  /** `in` is decided by the search from the start. */
  lemma FindDecides(text: string, pat: string)
    ensures Find(text, pat, 0).Some? <==> Contains(text, pat)
  {
    if Find(text, pat, 0).Some? {
      assert OccursAt(text, pat, Find(text, pat, 0).value);
    }
  }

  /**
   * text.split(sep)[-1]: the pieces are cut left to right at each
   * occurrence of sep, and the last piece is what follows the last cut.
   */
  function AfterLast(text: string, sep: string): (r: string)
    requires 0 < |sep|
    decreases |text|
  {
    match Find(text, sep, 0)
    case None => text
    case Some(i) => AfterLast(text[i + |sep|..], sep)
  }

  /** The last piece is a suffix of the text, holds no separator, and is the whole text or follows a separator. */
  lemma AfterLastSuffix(text: string, sep: string)
    requires 0 < |sep|
    ensures |AfterLast(text, sep)| <= |text|
    ensures AfterLast(text, sep) == text[|text| - |AfterLast(text, sep)|..]
    ensures !Contains(AfterLast(text, sep), sep)
    ensures AfterLast(text, sep) == text || FollowsSeparator(text, sep, |text| - |AfterLast(text, sep)|)
  {
    AfterLastShape(text, sep);
    AfterLastClean(text, sep);
  }

  /** The last piece is a suffix: the whole text, or what follows an occurrence of the separator. */
  lemma AfterLastShape(text: string, sep: string)
    requires 0 < |sep|
    ensures |AfterLast(text, sep)| <= |text|
    ensures AfterLast(text, sep) == text[|text| - |AfterLast(text, sep)|..]
    ensures AfterLast(text, sep) == text || FollowsSeparator(text, sep, |text| - |AfterLast(text, sep)|)
  {
    AfterLastIsSuffix(text, sep);
    AfterLastFollows(text, sep);
  }

  lemma {:induction false} AfterLastIsSuffix(text: string, sep: string)
    requires 0 < |sep|
    ensures |AfterLast(text, sep)| <= |text|
    ensures AfterLast(text, sep) == text[|text| - |AfterLast(text, sep)|..]
    decreases |text|
  {
    var f := Find(text, sep, 0);
    if f.Some? {
      var rest := text[f.value + |sep|..];
      var r := AfterLast(rest, sep);
      assert AfterLast(text, sep) == r;
      AfterLastIsSuffix(rest, sep);
      assert r == rest[|rest| - |r|..];
      SuffixOfSuffix(text, f.value + |sep|, |text| - |r|);
    }
  }

  lemma {:induction false} AfterLastFollows(text: string, sep: string)
    requires 0 < |sep| && |AfterLast(text, sep)| <= |text|
    ensures |AfterLast(text, sep)| == |text| || FollowsSeparator(text, sep, |text| - |AfterLast(text, sep)|)
    decreases |text|
  {
    var f := Find(text, sep, 0);
    if f.Some? {
      var i := f.value;
      var rest := text[i + |sep|..];
      var r := AfterLast(rest, sep);
      assert AfterLast(text, sep) == r;
      AfterLastIsSuffix(rest, sep);
      AfterLastFollows(rest, sep);
      if |r| == |rest| {
        FollowsShift(text, sep, i, true, 0);
      } else {
        FollowsShift(text, sep, i, false, |rest| - |r|);
      }
    }
  }

  /** The last piece holds no separator. */
  lemma {:induction false} AfterLastClean(text: string, sep: string)
    requires 0 < |sep|
    ensures !Contains(AfterLast(text, sep), sep)
    decreases |text|
  {
    var f := Find(text, sep, 0);
    if f.None? {
      FindDecides(text, sep);
    } else {
      var rest := text[f.value + |sep|..];
      assert AfterLast(text, sep) == AfterLast(rest, sep);
      AfterLastClean(rest, sep);
    }
  }

  /** Position k is preceded by an occurrence of sep. */
  predicate FollowsSeparator(text: string, sep: string, k: nat) {
    |sep| <= k <= |text| && OccursAt(text, sep, k - |sep|)
  }

  lemma FollowsShift(text: string, sep: string, i: nat, whole: bool, k: nat)
    requires OccursAt(text, sep, i)
    requires whole ==> k == 0
    requires !whole ==> FollowsSeparator(text[i + |sep|..], sep, k)
    ensures FollowsSeparator(text, sep, i + |sep| + k)
  {
    if !whole {
      var rest := text[i + |sep|..];
      assert rest[k - |sep|..k] == text[i + k..i + |sep| + k];
    }
  }

  /** An occurrence in a suffix is an occurrence in the text. */
  lemma ContainsSuffix(text: string, k: nat, pat: string)
    requires k <= |text| && Contains(text[k..], pat)
    ensures Contains(text, pat)
  {
    var i: nat :| i <= |text[k..]| && OccursAt(text[k..], pat, i);
    assert text[k + i..k + i + |pat|] == text[k..][i..i + |pat|];
    assert OccursAt(text, pat, k + i);
  }

  /** The text searched in the last piece is part of the whole text. */
  lemma AfterLastContains(text: string, sep: string, pat: string)
    requires 0 < |sep| && Contains(AfterLast(text, sep), pat)
    ensures Contains(text, pat)
  {
    AfterLastSuffix(text, sep);
    ContainsSuffix(text, |text| - |AfterLast(text, sep)|, pat);
  }

  /** Text without the separator is its own last piece. */
  lemma AfterLastNoSeparator(text: string, sep: string)
    requires 0 < |sep| && !Contains(text, sep)
    ensures AfterLast(text, sep) == text
  {
    FindDecides(text, sep);
  }

  /** Cutting at a character pat lacks: pat occurs in a + [c] + b iff it occurs in a or in b. */
  lemma SplitAtChar(a: string, c: char, b: string, pat: string)
    requires c !in pat
    ensures Contains(a + [c] + b, pat) <==> Contains(a, pat) || Contains(b, pat)
  {
    if Contains(a + [c] + b, pat) {
      SplitOccurrence(a, c, b, pat);
    }
    if Contains(a, pat) {
      var i: nat :| i <= |a| && OccursAt(a, pat, i);
      OccursInLeft(a, c, b, pat, i);
    }
    if Contains(b, pat) {
      var i: nat :| i <= |b| && OccursAt(b, pat, i);
      OccursInRight(a, c, b, pat, i);
    }
  }

  /** An occurrence in a + [c] + b lies wholly in a or wholly in b when pat lacks c. */
  lemma SplitOccurrence(a: string, c: char, b: string, pat: string)
    requires c !in pat && Contains(a + [c] + b, pat)
    ensures Contains(a, pat) || Contains(b, pat)
  {
    var t := a + [c] + b;
    var i: nat :| i <= |t| && OccursAt(t, pat, i);
    NotAcrossChar(a, c, b, pat, i);
    if i + |pat| <= |a| {
      assert a[i..i + |pat|] == t[i..i + |pat|];
      assert OccursAt(a, pat, i);
    } else if i > |a| {
      SliceRight(a, c, b, i - |a| - 1, |pat|);
      assert OccursAt(b, pat, i - |a| - 1);
    }
  }

  /** pat, lacking c, does not occur across the c between a and b. */
  lemma NotAcrossChar(a: string, c: char, b: string, pat: string, i: nat)
    requires c !in pat
    ensures i <= |a| < i + |pat| ==> !OccursAt(a + [c] + b, pat, i)
  {
    var t := a + [c] + b;
    if i <= |a| < i + |pat| <= |t| {
      assert t[i..i + |pat|][|a| - i] == c;
    }
  }

  lemma OccursInLeft(a: string, c: char, b: string, pat: string, i: nat)
    requires OccursAt(a, pat, i)
    ensures Contains(a + [c] + b, pat)
  {
    var t := a + [c] + b;
    assert t[i..i + |pat|] == a[i..i + |pat|];
    assert OccursAt(t, pat, i);
  }

  lemma OccursInRight(a: string, c: char, b: string, pat: string, i: nat)
    requires OccursAt(b, pat, i)
    ensures Contains(a + [c] + b, pat)
  {
    SliceRight(a, c, b, i, |pat|);
    assert OccursAt(a + [c] + b, pat, |a| + 1 + i);
  }

  /** A slice of b read inside a + [c] + b. */
  lemma SliceRight(a: string, c: char, b: string, j: nat, n: nat)
    requires j + n <= |b|
    ensures (a + [c] + b)[|a| + 1 + j..|a| + 1 + j + n] == b[j..j + n]
  {
    var t := a + [c] + b;
    var u, v := t[|a| + 1 + j..|a| + 1 + j + n], b[j..j + n];
    forall k | 0 <= k < n ensures u[k] == v[k] {
      assert t[|a| + 1 + j + k] == b[j + k];
    }
  }

  /** A pattern holding a character the text lacks does not occur in it. */
  lemma MissingChar(text: string, pat: string, k: nat)
    requires k < |pat| && pat[k] !in text
    ensures !Contains(text, pat)
  {
    forall i: nat | i <= |text| ensures !OccursAt(text, pat, i) {
      if i + |pat| <= |text| {
        assert text[i..i + |pat|][k] == text[i + k];
      }
    }
  }

  /** Occurrences survive appending text on either side. */
  lemma ContainsGrow(a: string, text: string, b: string, pat: string)
    requires Contains(text, pat)
    ensures Contains(a + text + b, pat)
  {
    var i: nat :| i <= |text| && OccursAt(text, pat, i);
    var t := a + text + b;
    assert t[|a| + i..|a| + i + |pat|] == text[i..i + |pat|];
    assert OccursAt(t, pat, |a| + i);
  }

  /** An occurrence in a + b lies in a or in b when no proper prefix of pat ends a. */
  lemma NoStraddle(a: string, b: string, pat: string)
    requires forall k :: 0 < k < |pat| && k <= |a| ==> a[|a| - k..] != pat[..k]
    ensures Contains(a + b, pat) <==> Contains(a, pat) || Contains(b, pat)
  {
    if Contains(a + b, pat) {
      ContainsSplit(a, b, pat);
    }
    if Contains(a, pat) {
      ContainsGrow([], a, b, pat);
      assert [] + a + b == a + b;
    }
    if Contains(b, pat) {
      ContainsGrow(a, b, [], pat);
      assert a + b + [] == a + b;
    }
  }

  /** The forward half of NoStraddle: an occurrence in a + b is one in a or one in b. */
  lemma ContainsSplit(a: string, b: string, pat: string)
    requires forall k :: 0 < k < |pat| && k <= |a| ==> a[|a| - k..] != pat[..k]
    requires Contains(a + b, pat)
    ensures Contains(a, pat) || Contains(b, pat)
  {
    var t := a + b;
    var i: nat :| i <= |t| && OccursAt(t, pat, i);
    NotAcross(a, b, pat, i);
    if i + |pat| <= |a| {
      assert a[i..i + |pat|] == t[i..i + |pat|];
      assert OccursAt(a, pat, i);
    } else {
      assert b[i - |a|..i - |a| + |pat|] == t[i..i + |pat|];
      assert OccursAt(b, pat, i - |a|);
    }
  }

  /** No occurrence in a + b starts inside a and ends inside b. */
  lemma NotAcross(a: string, b: string, pat: string, i: nat)
    requires forall k :: 0 < k < |pat| && k <= |a| ==> a[|a| - k..] != pat[..k]
    ensures i < |a| < i + |pat| ==> !OccursAt(a + b, pat, i)
  {
    var t := a + b;
    if i < |a| < i + |pat| && i + |pat| <= |t| {
      assert t[i..i + |pat|][..|a| - i] == a[i..];
    }
  }

  /** After a separator followed by z, the last piece is shorter than the separator and z together. */
  lemma AfterLastBound(y: string, sep: string, z: string)
    requires 0 < |sep|
    ensures |AfterLast(y + sep + z, sep)| < |sep| + |z|
  {
    var t := y + sep + z;
    AfterLastSuffix(t, sep);
    forall d | 0 <= d <= |y| ensures Contains(t[d..], sep) {
      SeparatorInSuffix(y, sep, z, d);
    }
  }

  lemma SeparatorInSuffix(y: string, sep: string, z: string, d: nat)
    requires d <= |y|
    ensures Contains((y + sep + z)[d..], sep)
  {
    var t := y + sep + z;
    assert t[d..][|y| - d..|y| - d + |sep|] == sep;
    assert OccursAt(t[d..], sep, |y| - d);
  }

  /** What the last piece after a separator followed by z contains, the separator and z contain. */
  lemma AfterLastInTail(y: string, sep: string, z: string, pat: string)
    requires 0 < |sep| && Contains(AfterLast(y + sep + z, sep), pat)
    ensures Contains(sep + z, pat)
  {
    var t := y + sep + z;
    var tail := sep + z;
    AfterLastBound(y, sep, z);
    AfterLastSuffix(t, sep);
    var r := AfterLast(t, sep);
    assert t[|y|..] == tail;
    SuffixOfSuffix(t, |y|, |t| - |r|);
    ContainsSuffix(tail, |tail| - |r|, pat);
  }

  lemma SuffixOfSuffix(t: string, i: nat, j: nat)
    requires i <= j <= |t|
    ensures t[j..] == t[i..][j - i..]
  {
  }
}
