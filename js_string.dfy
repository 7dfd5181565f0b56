/** The few `String.prototype` operations the core calls: `indexOf`,
    `replace` with a string pattern, `includes`, `toLowerCase` (ASCII
    letters only), `trim`, and character order standing in for
    `localeCompare`. A `char` is a Unicode scalar value, so lengths and
    positions count characters, where JavaScript counts UTF-16 code units;
    the two agree on text inside the Basic Multilingual Plane. */
module JsString {
  import opened Wrappers

  /** `pat` occurs in `s` starting at index `i`. */
  predicate OccursAt(s: string, pat: string, i: int) {
    0 <= i && i + |pat| <= |s| && s[i..i + |pat|] == pat
  }

  function IndexOfFrom(s: string, pat: string, from: nat): (r: Option<nat>)
    ensures r.Some? ==> from <= r.value && OccursAt(s, pat, r.value)
    ensures r.Some? ==> forall j :: from <= j < r.value ==> !OccursAt(s, pat, j)
    ensures r.None? ==> forall j :: from <= j ==> !OccursAt(s, pat, j)
    decreases |s| - from
  {
    if from + |pat| > |s| then None
    else if s[from..from + |pat|] == pat then Some(from)
    else IndexOfFrom(s, pat, from + 1)
  }

  /** `s.indexOf(pat)`, with None standing for -1: the first occurrence. */
  function IndexOf(s: string, pat: string): (r: Option<nat>)
    ensures r.Some? ==> OccursAt(s, pat, r.value)
    ensures r.Some? ==> forall j :: 0 <= j < r.value ==> !OccursAt(s, pat, j)
    ensures r.None? ==> forall j :: !OccursAt(s, pat, j)
  {
    IndexOfFrom(s, pat, 0)
  }

  /** `s.replace(pat, rep)` with a string pattern: only the first occurrence
      of `pat` is replaced (`rep` is taken literally; it holds no `$`). */
  function ReplaceFirst(s: string, pat: string, rep: string): (r: string)
    ensures |r| == |s| || |r| == |s| - |pat| + |rep|
  {
    match IndexOf(s, pat)
    case None => s
    case Some(i) => s[..i] + rep + s[i + |pat|..]
  }

  /** Without an occurrence nothing changes; otherwise the first occurrence,
      and only it, is replaced. */
  lemma ReplaceFirstSpec(s: string, pat: string, rep: string)
    ensures (forall j :: !OccursAt(s, pat, j)) ==> ReplaceFirst(s, pat, rep) == s
    ensures forall i :: OccursAt(s, pat, i) && (forall j :: 0 <= j < i ==> !OccursAt(s, pat, j)) ==>
      ReplaceFirst(s, pat, rep) == s[..i] + rep + s[i + |pat|..]
  {
    match IndexOf(s, pat)
    case None =>
    case Some(k) =>
      forall i | OccursAt(s, pat, i) && (forall j :: 0 <= j < i ==> !OccursAt(s, pat, j))
        ensures i == k
      {
      }
  }

  /** A string that begins with the pattern has it replaced at its start. */
  lemma ReplaceFirstAtStart(pat: string, rest: string, rep: string)
    ensures ReplaceFirst(pat + rest, pat, rep) == rep + rest
  {
    var s := pat + rest;
    assert s[..|pat|] == pat;
    assert OccursAt(s, pat, 0);
    assert IndexOf(s, pat) == Some(0);
    assert s[|pat|..] == rest;
  }

  /** Replacing in `p + s` where no occurrence starts inside `p` replaces
      in `s` and keeps `p`. */
  lemma ReplaceFirstAfterPrefix(p: string, s: string, pat: string, rep: string)
    requires forall j :: 0 <= j < |p| ==> !OccursAt(p + s, pat, j)
    ensures ReplaceFirst(p + s, pat, rep) == p + ReplaceFirst(s, pat, rep)
  {
    IndexOfAfterPrefix(p, s, pat);
    ReplaceAtShiftedIndex(p, s, pat, rep);
  }

  lemma ReplaceAtShiftedIndex(p: string, s: string, pat: string, rep: string)
    requires IndexOf(p + s, pat).Some? <==> IndexOf(s, pat).Some?
    requires IndexOf(s, pat).Some? ==> IndexOf(p + s, pat).value == |p| + IndexOf(s, pat).value
    ensures ReplaceFirst(p + s, pat, rep) == p + ReplaceFirst(s, pat, rep)
  {
    if IndexOf(s, pat).Some? {
      var i := IndexOf(s, pat).value;
      var k := |p| + i;
      calc {
        ReplaceFirst(p + s, pat, rep);
        { ReplaceAt(p + s, pat, rep, k); }
        (p + s)[..k] + rep + (p + s)[k + |pat|..];
        { SlicesOfConcat(p, s, i); SlicesOfConcat(p, s, i + |pat|); }
        p + s[..i] + rep + s[i + |pat|..];
        { ConcatAssoc(p, s[..i], rep, s[i + |pat|..]); }
        p + (s[..i] + rep + s[i + |pat|..]);
        { ReplaceAt(s, pat, rep, i); }
        p + ReplaceFirst(s, pat, rep);
      }
    }
  }

  /** `ReplaceFirst` at a known first occurrence. */
  lemma ReplaceAt(s: string, pat: string, rep: string, i: nat)
    requires IndexOf(s, pat) == Some(i)
    ensures i + |pat| <= |s|
    ensures ReplaceFirst(s, pat, rep) == s[..i] + rep + s[i + |pat|..]
  {
  }

  /** Cutting `p + s` after `p` and `i` more characters. */
  lemma SlicesOfConcat(p: string, s: string, i: nat)
    requires i <= |s|
    ensures (p + s)[..|p| + i] == p + s[..i]
    ensures (p + s)[|p| + i..] == s[i..]
  {
  }

  lemma ConcatAssoc(p: string, a: string, r: string, b: string)
    ensures p + a + r + b == p + (a + r + b)
  {
  }

  /** An occurrence in `s` is one in `p + s`, shifted by `|p|`. */
  lemma OccursShifted(p: string, s: string, pat: string, j: nat)
    ensures OccursAt(p + s, pat, |p| + j) <==> OccursAt(s, pat, j)
  {
    if j + |pat| <= |s| {
      assert (p + s)[|p| + j..|p| + j + |pat|] == s[j..j + |pat|];
    }
  }

  /** Where no occurrence starts inside `p`, the first occurrence in
      `p + s` is the first one in `s`, shifted by `|p|`. */
  lemma IndexOfAfterPrefix(p: string, s: string, pat: string)
    requires forall j :: 0 <= j < |p| ==> !OccursAt(p + s, pat, j)
    ensures IndexOf(p + s, pat).Some? <==> IndexOf(s, pat).Some?
    ensures IndexOf(s, pat).Some? ==> IndexOf(p + s, pat).value == |p| + IndexOf(s, pat).value
  {
    var t := p + s;
    var r := IndexOf(t, pat);
    if r.Some? {
      OccursShifted(p, s, pat, r.value - |p|);
    }
    match IndexOf(s, pat)
    case None =>
    case Some(i) =>
      OccursShifted(p, s, pat, i);
      if r.value < |p| + i {
        OccursShifted(p, s, pat, r.value - |p|);
      }
  }

  /** A pattern whose first character does not recur in it is replaced
      where it is appended after a string that does not contain it. */
  lemma ReplaceFirstAfterFree(stem: string, pat: string, rest: string, rep: string)
    requires pat != [] && forall m :: 0 < m < |pat| ==> pat[m] != pat[0]
    requires !Includes(stem, pat)
    ensures ReplaceFirst(stem + pat + rest, pat, rep) == stem + rep + rest
  {
    var t := stem + pat + rest;
    var i := |stem|;
    assert t[i..i + |pat|] == pat;
    assert OccursAt(t, pat, i);
    forall j | 0 <= j < i ensures !OccursAt(t, pat, j) {
      if j + |pat| <= i {
        assert stem[j..j + |pat|] == t[j..j + |pat|];
        assert !OccursAt(stem, pat, j);
      } else {
        assert t[j..j + |pat|][i - j] == pat[0] != pat[i - j];
      }
    }
    assert IndexOf(t, pat) == Some(i);
    ReplaceAt(t, pat, rep, i);
    assert t[..i] == stem;
    assert t[i + |pat|..] == rest;
  }

  /** `s.includes(pat)`. */
  function Includes(s: string, pat: string): (b: bool)
    ensures b <==> exists i :: OccursAt(s, pat, i)
  {
    IndexOf(s, pat).Some?
  }

  function LowerChar(c: char): char {
    if 'A' <= c <= 'Z' then (c as int + 32) as char else c
  }

  /** `s.toLowerCase()` on ASCII letters: each upper-case letter becomes
      the lower-case letter 32 code points higher, every other character
      stays. */
  function ToLower(s: string): (r: string)
    ensures |r| == |s|
    ensures forall i :: 0 <= i < |s| ==>
      if 'A' <= s[i] <= 'Z' then r[i] as int == s[i] as int + 32 else r[i] == s[i]
    ensures forall i :: 0 <= i < |r| ==> !('A' <= r[i] <= 'Z')
  {
    seq(|s|, i requires 0 <= i < |s| => LowerChar(s[i]))
  }

  /** Two characters are the same letter up to ASCII case. */
  predicate SameIgnoringCase(c: char, d: char) {
    c == d
    || ('A' <= c <= 'Z' && d as int == c as int + 32)
    || ('A' <= d <= 'Z' && c as int == d as int + 32)
  }

  /** Two strings that differ at most in the case of ASCII letters. */
  predicate EqualIgnoringCase(a: string, b: string) {
    |a| == |b| && forall i :: 0 <= i < |a| ==> SameIgnoringCase(a[i], b[i])
  }

  lemma LowerCharSame(c: char, d: char)
    ensures LowerChar(c) == LowerChar(d) <==> SameIgnoringCase(c, d)
  {
  }

  /** Lower-casing identifies exactly the strings that differ only in the
      case of ASCII letters. */
  lemma ToLowerIgnoresCase(a: string, b: string)
    ensures ToLower(a) == ToLower(b) <==> EqualIgnoringCase(a, b)
  {
    if ToLower(a) == ToLower(b) {
      forall i | 0 <= i < |a| ensures SameIgnoringCase(a[i], b[i]) {
        assert ToLower(a)[i] == ToLower(b)[i];
        LowerCharSame(a[i], b[i]);
      }
    }
    if EqualIgnoringCase(a, b) {
      forall i | 0 <= i < |a| ensures ToLower(a)[i] == ToLower(b)[i] {
        LowerCharSame(a[i], b[i]);
      }
    }
  }

  /** The code points ECMAScript's `trim` removes: WhiteSpace (tab, vertical
      tab, form feed, space, no-break space, the byte-order mark and the
      other space separators) and LineTerminator. */
  predicate IsJsWhitespace(c: char) {
    c as int in WhitespaceCodes
  }

  const WhitespaceCodes: set<int> := {
    0x09, 0x0B, 0x0C, 0x20, 0xA0, 0xFEFF, 0x1680,
    0x2000, 0x2001, 0x2002, 0x2003, 0x2004, 0x2005, 0x2006, 0x2007, 0x2008, 0x2009, 0x200A,
    0x202F, 0x205F, 0x3000,
    0x0A, 0x0D, 0x2028, 0x2029
  }

  function TrimStart(s: string): (r: string)
    ensures |r| <= |s| && r == s[|s| - |r|..]
    ensures forall k :: 0 <= k < |s| - |r| ==> IsJsWhitespace(s[k])
    ensures r == [] || !IsJsWhitespace(r[0])
  {
    if s != [] && IsJsWhitespace(s[0]) then TrimStart(s[1..]) else s
  }

  function TrimEnd(s: string): (r: string)
    ensures |r| <= |s| && r == s[..|r|]
    ensures forall k :: |r| <= k < |s| ==> IsJsWhitespace(s[k])
    ensures r == [] || !IsJsWhitespace(r[|r| - 1])
  {
    if s != [] && IsJsWhitespace(s[|s| - 1]) then TrimEnd(s[..|s| - 1]) else s
  }

  /** `s.trim()`: the longest slice of `s` that neither starts nor ends with
      whitespace, once all whitespace at both ends is removed. */
  function Trim(s: string): (r: string)
    ensures exists i :: SliceWithBlankEnds(s, r, i)
    ensures r == [] || (!IsJsWhitespace(r[0]) && !IsJsWhitespace(r[|r| - 1]))
  {
    var t := TrimStart(s);
    TrimBothEnds(s, t, TrimEnd(t));
    TrimEnd(t)
  }

  /** Trimming the end of what remains after trimming the start leaves a
      slice with whitespace only around it. */
  lemma TrimBothEnds(s: string, t: string, r: string)
    requires |t| <= |s| && t == s[|s| - |t|..]
    requires forall k :: 0 <= k < |s| - |t| ==> IsJsWhitespace(s[k])
    requires |r| <= |t| && r == t[..|r|]
    requires forall k :: |r| <= k < |t| ==> IsJsWhitespace(t[k])
    ensures SliceWithBlankEnds(s, r, |s| - |t|)
  {
    var i := |s| - |t|;
    assert s[i..][..|r|] == s[i..i + |r|];
    forall k | i + |r| <= k < |s| ensures IsJsWhitespace(s[k]) {
      assert s[k] == t[k - i];
    }
  }

  /** `r` is `s[i..i + |r|]` and everything of `s` around it is whitespace. */
  predicate SliceWithBlankEnds(s: string, r: string, i: int) {
    && 0 <= i <= i + |r| <= |s|
    && r == s[i..i + |r|]
    && (forall k :: 0 <= k < i ==> IsJsWhitespace(s[k]))
    && (forall k :: i + |r| <= k < |s| ==> IsJsWhitespace(s[k]))
  }

  /** A string is blank after trimming exactly when it is all whitespace. */
  lemma TrimBlank(s: string)
    ensures Trim(s) == [] <==> forall k :: 0 <= k < |s| ==> IsJsWhitespace(s[k])
  {
    if forall k :: 0 <= k < |s| ==> IsJsWhitespace(s[k]) {
      AllWhitespaceTrims(s);
    }
  }

  lemma {:induction false} AllWhitespaceTrims(s: string)
    requires forall k :: 0 <= k < |s| ==> IsJsWhitespace(s[k])
    ensures TrimStart(s) == []
  {
    if s != [] {
      AllWhitespaceTrims(s[1..]);
    }
  }

  /** Lexicographic order on strings, character by character. */
  predicate LexLe(a: string, b: string) {
    if a == [] then true
    else if b == [] then false
    else if a[0] != b[0] then a[0] < b[0]
    else LexLe(a[1..], b[1..])
  }

  lemma {:induction false} LexLeTotal(a: string, b: string)
    ensures LexLe(a, b) || LexLe(b, a)
  {
    if a != [] && b != [] && a[0] == b[0] {
      LexLeTotal(a[1..], b[1..]);
    }
  }

  lemma {:induction false} LexLeTransitive(a: string, b: string, c: string)
    requires LexLe(a, b) && LexLe(b, c)
    ensures LexLe(a, c)
  {
    if a != [] && b != [] && c != [] && a[0] == b[0] && b[0] == c[0] {
      LexLeTransitive(a[1..], b[1..], c[1..]);
    }
  }

  lemma {:induction false} LexLeAntisymmetric(a: string, b: string)
    requires LexLe(a, b) && LexLe(b, a)
    ensures a == b
  {
    if a != [] && b != [] {
      LexLeAntisymmetric(a[1..], b[1..]);
      assert a == [a[0]] + a[1..] && b == [b[0]] + b[1..];
    }
  }
}
