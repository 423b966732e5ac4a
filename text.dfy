/** The Python string operations the adapters rely on: `str.strip()`,
    `str.split(sep)`, `sep.join(parts)` and the `{query}`/`{context}`
    substitution done by `str.format`, together with the facts about them
    that answer extraction and prompt assembly need. */
module Text {

  /* ---------------------------------------------------------------------
     Whitespace and str.strip()
     --------------------------------------------------------------------- */

  /** The characters for which Python's `str.isspace()` holds. */
  predicate IsSpace(c: char)
  {
    || c == ' '
    || '\t' <= c <= '\r'
    || '\U{1c}' <= c <= '\U{1f}'
    || c == '\U{85}' || c == '\U{a0}' || c == '\U{1680}'
    || '\U{2000}' <= c <= '\U{200a}'
    || c == '\U{2028}' || c == '\U{2029}' || c == '\U{202f}'
    || c == '\U{205f}' || c == '\U{3000}'
  }

  ghost predicate AllSpace(s: string)
  {
    forall k :: 0 <= k < |s| ==> IsSpace(s[k])
  }

  /** Neither end of `s` is whitespace. */
  predicate IsTrimmed(s: string)
  {
    s == [] || (!IsSpace(s[0]) && !IsSpace(s[|s| - 1]))
  }

  /** `r` is `s` without a leading run of whitespace, and starts with no whitespace. */
  ghost predicate LeftStripped(s: string, r: string)
  {
    && |r| <= |s| && r == s[|s| - |r|..]
    && (forall k :: 0 <= k < |s| - |r| ==> IsSpace(s[k]))
    && (r == [] || !IsSpace(r[0]))
  }

  /** `r` is `s` without a trailing run of whitespace, and ends with no whitespace. */
  ghost predicate RightStripped(s: string, r: string)
  {
    && |r| <= |s| && r == s[..|r|]
    && (forall k :: |r| <= k < |s| ==> IsSpace(s[k]))
    && (r == [] || !IsSpace(r[|r| - 1]))
  }

  /** Python's `str.lstrip()`: the longest suffix that does not start with whitespace. */
  function TrimStart(s: string): (r: string)
    ensures LeftStripped(s, r)
  {
    if s != [] && IsSpace(s[0]) then
      var r := TrimStart(s[1..]);
      assert forall k :: 1 <= k < |s| ==> s[k] == s[1..][k - 1];
      r
    else
      s
  }

  /** Python's `str.rstrip()`: the longest prefix that does not end with whitespace. */
  function TrimEnd(s: string): (r: string)
    ensures RightStripped(s, r)
  {
    if s != [] && IsSpace(s[|s| - 1]) then
      var r := TrimEnd(s[..|s| - 1]);
      assert forall k :: 0 <= k < |s| - 1 ==> s[k] == s[..|s| - 1][k];
      r
    else
      s
  }

  /** `r` is `s` with the whitespace run `s[..i]` removed in front and only
      whitespace removed behind. */
  ghost predicate StrippedAt(s: string, r: string, i: int)
  {
    0 <= i && i + |r| <= |s| && s[i..i + |r|] == r
    && AllSpace(s[..i]) && AllSpace(s[i + |r|..])
  }

  /** Python's `str.strip()` with no argument. */
  function Trim(s: string): (r: string)
    ensures IsTrimmed(r)
    ensures exists i :: StrippedAt(s, r, i)
  {
    var t := TrimStart(s);
    var r := TrimEnd(t);
    TrimStrips(s, t, r);
    r
  }

  lemma TrimStrips(s: string, t: string, r: string)
    requires LeftStripped(s, t) && RightStripped(t, r)
    ensures StrippedAt(s, r, |s| - |t|) && IsTrimmed(r)
  {
    assert r != [] ==> r[0] == t[0];
    var i := |s| - |t|;
    assert r == s[i..i + |r|];
    var u := s[..i];
    forall k | 0 <= k < |u| ensures IsSpace(u[k]) {
      assert u[k] == s[k];
    }
    var w := s[i + |r|..];
    forall k | 0 <= k < |w| ensures IsSpace(w[k]) {
      assert w[k] == t[|r| + k];
    }
  }

  /** A slice of a slice is a slice of the whole. */
  lemma SliceOfSlice(s: string, a: int, b: int, i: int, j: int)
    requires 0 <= a <= b <= |s| && 0 <= i <= j <= b - a
    ensures s[a..b][i..j] == s[a + i..a + j]
  {
    var u := s[a..b][i..j];
    var v := s[a + i..a + j];
    forall k | 0 <= k < |u| ensures u[k] == v[k] { }
  }

  /** Where the stripped text starts inside the original. */
  lemma TrimOffset(s: string) returns (i: nat)
    ensures i + |Trim(s)| <= |s| && Trim(s) == s[i..i + |Trim(s)|]
  {
    i :| StrippedAt(s, Trim(s), i);
  }

  /** Stripping text that is already stripped changes nothing. */
  lemma TrimOfTrimmed(s: string)
    requires IsTrimmed(s)
    ensures Trim(s) == s
  {
  }

  /** A single leading space is stripped from otherwise stripped text. */
  lemma TrimLeadingSpace(s: string)
    requires s != [] && s[0] == ' ' && IsTrimmed(s[1..])
    ensures Trim(s) == s[1..]
  {
    var t := s[1..];
    assert IsSpace(s[0]);
    assert TrimStart(s) == TrimStart(t);
    TrimOfTrimmed(t);
  }

  /* ---------------------------------------------------------------------
     Occurrences of a marker
     --------------------------------------------------------------------- */

  ghost predicate OccursAt(s: string, m: string, i: int)
  {
    0 <= i && i + |m| <= |s| && s[i..i + |m|] == m
  }

  /** `m` is a substring of `s` (Python's `m in s`). */
  ghost predicate Occurs(s: string, m: string)
  {
    exists i :: OccursAt(s, m, i)
  }

  /** No proper suffix of `m` is also a prefix of `m`, so two occurrences of
      `m` never overlap. */
  ghost predicate NoSelfOverlap(m: string)
  {
    forall d :: 0 < d < |m| ==> m[d..] != m[..|m| - d]
  }

  /** An occurrence inside a slice is an occurrence in the whole text. */
  lemma OccursInSlice(s: string, m: string, a: int, b: int)
    requires 0 <= a <= b <= |s| && Occurs(s[a..b], m)
    ensures Occurs(s, m)
  {
    var i :| OccursAt(s[a..b], m, i);
    SliceOfSlice(s, a, b, i, i + |m|);
    assert OccursAt(s, m, a + i);
  }

  /** `m` occurs in `s` exactly when it is a prefix of `s` or occurs in `s[1..]`. */
  lemma OccursUnfold(s: string, m: string)
    requires 0 < |m| <= |s|
    ensures Occurs(s, m) <==> (s[..|m|] == m || Occurs(s[1..], m))
  {
    if s[..|m|] == m {
      assert OccursAt(s, m, 0);
    }
    if Occurs(s[1..], m) {
      assert s[1..|s|] == s[1..];
      OccursInSlice(s, m, 1, |s|);
    }
    if Occurs(s, m) && s[..|m|] != m {
      var i :| OccursAt(s, m, i);
      assert s[1..][i - 1..i - 1 + |m|] == s[i..i + |m|];
      assert OccursAt(s[1..], m, i - 1);
    }
  }

  /** Text in which the first character of `m` never appears does not contain `m`. */
  lemma NoOccurrenceWithoutFirstChar(s: string, m: string)
    requires m != [] && forall k :: 0 <= k < |s| ==> s[k] != m[0]
    ensures !Occurs(s, m)
  {
    forall i | OccursAt(s, m, i) ensures s[i] == m[0] {
      assert s[i..i + |m|][0] == s[i];
    }
  }

  /** An occurrence in `x + [c]` lies inside `x` or ends at the last character. */
  lemma OccursSnoc(x: string, c: char, m: string)
    requires m != [] && Occurs(x + [c], m)
    ensures Occurs(x, m) || (|m| <= |x| + 1 && (x + [c])[|x| + 1 - |m|..] == m)
  {
    var s := x + [c];
    var i :| OccursAt(s, m, i);
    if i + |m| <= |x| {
      assert s[i..i + |m|] == x[i..i + |m|];
      assert OccursAt(x, m, i);
    }
  }

  /* ---------------------------------------------------------------------
     The last segment after a marker
     --------------------------------------------------------------------- */

  /** `r` is the text after the last occurrence of `m` in `s`: it holds no
      `m` and is preceded in `s` by `m`; without any `m` it is all of `s`. */
  ghost predicate IsLastSegment(s: string, m: string, r: string)
  {
    && !Occurs(r, m)
    && if Occurs(s, m) then |m| + |r| <= |s| && s[|s| - |m| - |r|..] == m + r
       else r == s
  }

  /** Reference definition: scan from the right for the rightmost `m`. */
  function AfterLast(s: string, m: string): (r: string)
    requires m != []
    ensures |r| <= |s| && r == s[|s| - |r|..]
    decreases |s|
  {
    if |s| < |m| then s
    else if s[|s| - |m|..] == m then []
    else
      var x := s[..|s| - 1];
      var r := AfterLast(x, m);
      assert s == x + [s[|s| - 1]];
      SuffixSnoc(x, s[|s| - 1], r);
      r + [s[|s| - 1]]
  }

  /** A suffix stays a suffix when the same character is appended to both. */
  lemma SuffixSnoc(x: string, c: char, r: string)
    requires |r| <= |x| && r == x[|x| - |r|..]
    ensures r + [c] == (x + [c])[|x| - |r|..]
  {
    var u := r + [c];
    var v := (x + [c])[|x| - |r|..];
    assert |u| == |v|;
    forall k | 0 <= k < |u| ensures u[k] == v[k] {
      if k < |r| {
        assert u[k] == r[k] == x[|x| - |r| + k];
      }
    }
  }

  lemma {:induction false} AfterLastIsLastSegment(s: string, m: string)
    requires m != []
    ensures IsLastSegment(s, m, AfterLast(s, m))
    decreases |s|
  {
    if |s| < |m| {
      ShortTextLastSegment(s, m);
    } else if s[|s| - |m|..] == m {
      EmptyLastSegment(s, m);
    } else {
      var r := AfterLast(s[..|s| - 1], m);
      AfterLastIsLastSegment(s[..|s| - 1], m);
      LastSegmentSnoc(s, m, r);
    }
  }

  /** Text shorter than the marker is its own last segment. */
  lemma ShortTextLastSegment(s: string, m: string)
    requires |s| < |m|
    ensures IsLastSegment(s, m, s)
  {
    assert !Occurs(s, m);
  }

  /** Text ending in the marker has an empty last segment. */
  lemma EmptyLastSegment(s: string, m: string)
    requires m != [] && |m| <= |s| && s[|s| - |m|..] == m
    ensures IsLastSegment(s, m, [])
  {
    assert OccursAt(s, m, |s| - |m|);
    assert !OccursAt([], m, 0);
    assert m + [] == m;
  }

  /** Appending a character that does not complete a marker extends the last segment. */
  lemma LastSegmentSnoc(s: string, m: string, r: string)
    requires m != [] && |m| <= |s| && s[|s| - |m|..] != m
    requires |r| < |s| && r == s[..|s| - 1][|s| - 1 - |r|..]
    requires IsLastSegment(s[..|s| - 1], m, r)
    ensures IsLastSegment(s, m, r + [s[|s| - 1]])
  {
    var x := s[..|s| - 1];
    var c := s[|s| - 1];
    assert s == x + [c];
    SuffixSnoc(x, c, r);
    SnocWithoutMarker(s, m, r);
    if Occurs(x, m) {
      MarkedSnoc(s, m, r);
    } else {
      UnmarkedSnoc(s, m);
    }
  }

  /** A marker before the last segment stays in front of the extended segment. */
  lemma MarkedSnoc(s: string, m: string, r: string)
    requires s != [] && Occurs(s[..|s| - 1], m)
    requires |m| + |r| <= |s| - 1 && s[..|s| - 1][|s| - 1 - |m| - |r|..] == m + r
    ensures Occurs(s, m)
    ensures s[|s| - |m| - |r| - 1..] == m + r + [s[|s| - 1]]
  {
    var x := s[..|s| - 1];
    assert x == s[0..|s| - 1];
    OccursInSlice(s, m, 0, |s| - 1);
    assert s == x + [s[|s| - 1]];
  }

  /** Appending a character that does not complete a marker keeps a text marker-free. */
  lemma UnmarkedSnoc(s: string, m: string)
    requires m != [] && s != [] && !Occurs(s[..|s| - 1], m)
    requires |m| <= |s| ==> s[|s| - |m|..] != m
    ensures !Occurs(s, m)
  {
    var x := s[..|s| - 1];
    assert s == x + [s[|s| - 1]];
    if Occurs(s, m) {
      OccursSnoc(x, s[|s| - 1], m);
    }
  }

  /** A marker-free suffix extended by the last character stays marker-free
      when the text does not end in the marker. */
  lemma SnocWithoutMarker(s: string, m: string, r: string)
    requires m != [] && |m| <= |s| && s[|s| - |m|..] != m
    requires |r| < |s| && r + [s[|s| - 1]] == s[|s| - |r| - 1..]
    requires !Occurs(r, m)
    ensures !Occurs(r + [s[|s| - 1]], m)
  {
    var r2 := r + [s[|s| - 1]];
    assert |m| <= |r2| ==> r2[|r2| - |m|..] == s[|s| - |m|..];
    if Occurs(r2, m) {
      OccursSnoc(r, s[|s| - 1], m);
    }
  }

  /** Two texts that both qualify as the last segment are equal, when the
      marker cannot overlap itself. The longer one would either contain the
      marker before the shorter one, or the two markers would overlap. */
  lemma LongerSegmentHasMarker(s: string, m: string, r1: string, r2: string)
    requires |m| + |r1| <= |s| && s[|s| - |m| - |r1|..] == m + r1
    requires |m| + |r2| <= |s| && s[|s| - |m| - |r2|..] == m + r2
    requires |r1| < |r2|
    ensures Occurs(r2, m) || (|r2| - |r1| < |m| && m[|r2| - |r1|..] == m[..|m| - (|r2| - |r1|)])
  {
    var d := |r2| - |r1|;
    var a := |s| - |m| - |r2|;
    var u := s[a..];
    var v := s[a + d..];
    assert u == m + r2 && v == m + r1;
    // u and v are the same text, v starting d characters later
    assert forall k :: 0 <= k < |v| ==> v[k] == u[d + k];
    if d >= |m| {
      assert forall k :: 0 <= k < |m| ==> r2[d - |m| + k] == u[d + k] && v[k] == m[k];
      assert r2[d - |m|..d] == m;
      assert OccursAt(r2, m, d - |m|);
    } else {
      forall k | 0 <= k < |m| - d ensures m[d..][k] == m[..|m| - d][k] {
        assert u[d + k] == m[d + k] && v[k] == m[k];
      }
      assert m[d..] == m[..|m| - d];
    }
  }

  lemma LastSegmentUnique(s: string, m: string, r1: string, r2: string)
    requires m != [] && NoSelfOverlap(m)
    requires IsLastSegment(s, m, r1) && IsLastSegment(s, m, r2)
    ensures r1 == r2
  {
    if Occurs(s, m) {
      if |r1| < |r2| {
        LongerSegmentHasMarker(s, m, r1, r2);
      } else if |r2| < |r1| {
        LongerSegmentHasMarker(s, m, r2, r1);
      }
      assert r1 == s[|s| - |r1|..];
      assert r2 == s[|s| - |r2|..];
    }
  }

  /* ---------------------------------------------------------------------
     str.split(sep) and sep.join(parts)
     --------------------------------------------------------------------- */

  function Last<T>(xs: seq<T>): T
    requires xs != []
  {
    xs[|xs| - 1]
  }

  /** Python's `s.split(m)` for a non-empty separator: scan left to right,
      cut at every occurrence that starts after the previous cut. */
  function SplitOn(s: string, m: string): (parts: seq<string>)
    requires m != []
    ensures |parts| >= 1
    decreases |s|
  {
    if |s| < |m| then [s]
    else if s[..|m|] == m then [[]] + SplitOn(s[|m|..], m)
    else
      var rest := SplitOn(s[1..], m);
      [[s[0]] + rest[0]] + rest[1..]
  }

  /** Python's `sep.join(parts)`. */
  function JoinWith(parts: seq<string>, sep: string): string
    decreases |parts|
  {
    if |parts| == 0 then []
    else if |parts| == 1 then parts[0]
    else parts[0] + sep + JoinWith(parts[1..], sep)
  }

  /** The joined text starts with the first part and ends with the last. */
  lemma {:induction false} JoinWithEnds(parts: seq<string>, sep: string)
    requires parts != []
    ensures parts[0] <= JoinWith(parts, sep)
    ensures var joined := JoinWith(parts, sep);
      |Last(parts)| <= |joined| && joined[|joined| - |Last(parts)|..] == Last(parts)
    decreases |parts|
  {
    if |parts| > 1 {
      var rest := JoinWith(parts[1..], sep);
      JoinWithEnds(parts[1..], sep);
      var last := Last(parts[1..]);
      assert last == Last(parts);
      var joined := parts[0] + sep + rest;
      assert joined == JoinWith(parts, sep);
      assert joined[|joined| - |last|..] == rest[|rest| - |last|..];
    }
  }

  /** Text without the separator is not split at all. */
  lemma {:induction false} SplitWithoutSeparator(s: string, m: string)
    requires m != [] && !Occurs(s, m)
    ensures SplitOn(s, m) == [s]
    decreases |s|
  {
    if |s| >= |m| {
      OccursUnfold(s, m);
      SplitWithoutSeparator(s[1..], m);
      assert [s[0]] + s[1..] == s;
    }
  }

  /** Text containing the separator is split into at least two parts. */
  lemma {:induction false} SplitWithSeparator(s: string, m: string)
    requires m != [] && Occurs(s, m)
    ensures |SplitOn(s, m)| >= 2
    decreases |s|
  {
    var i :| OccursAt(s, m, i);
    OccursUnfold(s, m);
    if s[..|m|] != m {
      SplitWithSeparator(s[1..], m);
    }
  }

  /** The last part of a split is the text after the last cut. */
  lemma {:induction false} SplitLastIsLastSegment(s: string, m: string)
    requires m != []
    ensures IsLastSegment(s, m, Last(SplitOn(s, m)))
    decreases |s|
  {
    if |s| < |m| {
      ShortTextLastSegment(s, m);
    } else if s[..|m|] == m {
      var t := s[|m|..];
      SplitLastIsLastSegment(t, m);
      assert SplitOn(s, m) == [[]] + SplitOn(t, m);
      LastSegmentAfterMarker(s, m, Last(SplitOn(t, m)));
    } else {
      var t := s[1..];
      OccursUnfold(s, m);
      if Occurs(t, m) {
        SplitWithSeparator(t, m);
        SplitLastIsLastSegment(t, m);
        assert Last(SplitOn(s, m)) == Last(SplitOn(t, m));
        LastSegmentAfterFirstChar(s, m, Last(SplitOn(t, m)));
      } else {
        SplitWithoutSeparator(s, m);
      }
    }
  }

  /** Dropping a leading marker keeps the last segment. */
  lemma LastSegmentAfterMarker(s: string, m: string, r: string)
    requires m != [] && |m| <= |s| && s[..|m|] == m
    requires IsLastSegment(s[|m|..], m, r)
    ensures IsLastSegment(s, m, r)
  {
    var t := s[|m|..];
    assert OccursAt(s, m, 0);
    if Occurs(t, m) {
      var j := |t| - |m| - |r|;
      assert forall k :: 0 <= k < |s| - |m| - j ==> t[j..][k] == s[|m| + j..][k];
      assert s[|s| - |m| - |r|..] == t[j..];
    } else {
      assert s == m + t;
    }
  }

  /** Dropping a first character keeps the last segment when the rest holds a marker. */
  lemma LastSegmentAfterFirstChar(s: string, m: string, r: string)
    requires s != [] && Occurs(s[1..], m) && IsLastSegment(s[1..], m, r)
    ensures IsLastSegment(s, m, r)
  {
    var t := s[1..];
    assert s[1..|s|] == t;
    OccursInSlice(s, m, 1, |s|);
    var j := |t| - |m| - |r|;
    assert forall k :: 0 <= k < |t| - j ==> t[j..][k] == s[1 + j..][k];
    assert s[|s| - |m| - |r|..] == t[j..];
  }

  lemma LastSegmentIsSuffix(s: string, m: string, r: string)
    requires IsLastSegment(s, m, r)
    ensures |r| <= |s| && r == s[|s| - |r|..]
  {
    if Occurs(s, m) {
      assert s[|s| - |r|..] == (m + r)[|m|..];
    }
  }

  /** Stripping the last segment keeps it free of the marker and inside the text. */
  lemma TrimOfLastSegment(s: string, m: string, segment: string)
    requires IsLastSegment(s, m, segment)
    ensures !Occurs(Trim(segment), m)
    ensures Occurs(s, Trim(segment))
  {
    LastSegmentIsSuffix(s, m, segment);
    TrimKeepsMarkerOut(segment, m);
    TrimOfSuffixOccurs(s, segment);
  }

  lemma TrimKeepsMarkerOut(segment: string, m: string)
    requires !Occurs(segment, m)
    ensures !Occurs(Trim(segment), m)
  {
    var i := TrimOffset(segment);
    NoOccurrenceInSlice(segment, m, Trim(segment), i);
  }

  lemma TrimOfSuffixOccurs(s: string, segment: string)
    requires |segment| <= |s| && segment == s[|s| - |segment|..]
    ensures Occurs(s, Trim(segment))
  {
    var i := TrimOffset(segment);
    InfixOfSuffix(s, segment, Trim(segment), i);
  }

  /** A slice of a text that does not contain `m` does not contain `m` either. */
  lemma NoOccurrenceInSlice(s: string, m: string, infix: string, i: int)
    requires !Occurs(s, m)
    requires 0 <= i && i + |infix| <= |s| && infix == s[i..i + |infix|]
    ensures !Occurs(infix, m)
  {
    if Occurs(infix, m) {
      OccursInSlice(s, m, i, i + |infix|);
    }
  }

  lemma InfixOfSuffix(s: string, suffix: string, infix: string, i: int)
    requires |suffix| <= |s| && suffix == s[|s| - |suffix|..]
    requires 0 <= i && i + |infix| <= |suffix| && infix == suffix[i..i + |infix|]
    ensures Occurs(s, infix)
  {
    var start := |s| - |suffix|;
    assert suffix == s[start..|s|];
    SliceOfSlice(s, start, |s|, i, i + |infix|);
    assert OccursAt(s, infix, start + i);
  }

  /** When the separator cannot overlap itself, the last part of Python's
      split is exactly the text after the rightmost occurrence. */
  lemma SplitLastIsAfterLast(s: string, m: string)
    requires m != [] && NoSelfOverlap(m)
    ensures Last(SplitOn(s, m)) == AfterLast(s, m)
  {
    SplitLastIsLastSegment(s, m);
    AfterLastIsLastSegment(s, m);
    LastSegmentUnique(s, m, Last(SplitOn(s, m)), AfterLast(s, m));
  }

  /** Python's identity `m.join(s.split(m)) == s`. */
  lemma {:induction false} JoinSplitRoundTrip(s: string, m: string)
    requires m != []
    ensures JoinWith(SplitOn(s, m), m) == s
    decreases |s|
  {
    if |s| < |m| {
      assert SplitOn(s, m) == [s];
    } else if s[..|m|] == m {
      var tail := SplitOn(s[|m|..], m);
      JoinSplitRoundTrip(s[|m|..], m);
      assert SplitOn(s, m) == [[]] + tail;
      JoinAfterMarker(s, m, tail);
    } else {
      var rest := SplitOn(s[1..], m);
      JoinSplitRoundTrip(s[1..], m);
      assert SplitOn(s, m) == [[s[0]] + rest[0]] + rest[1..];
      JoinPrependChar(s[0], rest, m);
      assert s == [s[0]] + s[1..];
    }
  }

  /** An empty first part puts the separator in front of the join. */
  lemma JoinAfterMarker(s: string, m: string, tail: seq<string>)
    requires |m| <= |s| && s[..|m|] == m
    requires tail != [] && JoinWith(tail, m) == s[|m|..]
    ensures JoinWith([[]] + tail, m) == s
  {
    JoinCons([], tail, m);
    assert [] + m == m;
    assert s == m + s[|m|..];
  }

  /** Gluing a character to the first part puts it in front of the join. */
  lemma JoinPrependChar(c: char, parts: seq<string>, sep: string)
    requires parts != []
    ensures JoinWith([[c] + parts[0]] + parts[1..], sep) == [c] + JoinWith(parts, sep)
  {
    if |parts| == 1 {
      assert [[c] + parts[0]] + parts[1..] == [[c] + parts[0]];
    } else {
      JoinCons([c] + parts[0], parts[1..], sep);
      assert parts == [parts[0]] + parts[1..];
      JoinCons(parts[0], parts[1..], sep);
    }
  }

  lemma JoinCons(x: string, ys: seq<string>, sep: string)
    requires ys != []
    ensures JoinWith([x] + ys, sep) == x + sep + JoinWith(ys, sep)
  {
    assert ([x] + ys)[1..] == ys;
  }

  /** Splitting `p + t` where `p` holds no separator glues `p` to the first part of `t`. */
  lemma {:induction false} SplitAfterPlainPrefix(p: string, t: string, c: char)
    requires c !in p
    ensures SplitOn(p + t, [c]) == [p + SplitOn(t, [c])[0]] + SplitOn(t, [c])[1..]
    decreases |p|
  {
    if p == [] {
      var parts := SplitOn(t, [c]);
      assert p + t == t;
      assert p + parts[0] == parts[0];
      assert parts == [parts[0]] + parts[1..];
    } else {
      var s := p + t;
      assert s[..1] == [p[0]];
      assert s[1..] == p[1..] + t;
      SplitAfterPlainPrefix(p[1..], t, c);
      assert [p[0]] + (p[1..] + SplitOn(t, [c])[0]) == p + SplitOn(t, [c])[0];
    }
  }

  /** Joining passages that hold no separator and splitting again gives them back. */
  lemma {:induction false} SplitJoinRoundTrip(parts: seq<string>, c: char)
    requires |parts| >= 1
    requires forall j :: 0 <= j < |parts| ==> c !in parts[j]
    ensures SplitOn(JoinWith(parts, [c]), [c]) == parts
    decreases |parts|
  {
    if |parts| == 1 {
      SplitAfterPlainPrefix(parts[0], [], c);
      assert parts[0] + [] == parts[0];
    } else {
      var tail := JoinWith(parts[1..], [c]);
      SplitJoinRoundTrip(parts[1..], c);
      var t := [c] + tail;
      assert t[..1] == [c] && t[1..] == tail;
      assert SplitOn(t, [c]) == [[]] + parts[1..];
      SplitAfterPlainPrefix(parts[0], t, c);
      assert parts[0] + [c] + tail == parts[0] + t;
      assert parts[0] + [] == parts[0];
      assert parts == [parts[0]] + parts[1..];
    }
  }

  function TotalLength(parts: seq<string>): nat
    decreases |parts|
  {
    if parts == [] then 0 else |parts[0]| + TotalLength(parts[1..])
  }

  /** Joining n >= 1 parts inserts exactly n - 1 separators; joining none gives "". */
  lemma {:induction false} JoinLength(parts: seq<string>, sep: string)
    ensures |parts| == 0 ==> JoinWith(parts, sep) == []
    ensures |parts| >= 1 ==> |JoinWith(parts, sep)| == TotalLength(parts) + (|parts| - 1) * |sep|
    decreases |parts|
  {
    if |parts| >= 2 {
      JoinLength(parts[1..], sep);
      assert (|parts| - 1) * |sep| == (|parts| - 2) * |sep| + |sep|;
    } else if |parts| == 1 {
      assert TotalLength(parts) == |parts[0]| + TotalLength([]);
    }
  }

  /* ---------------------------------------------------------------------
     A reduced str.format
     --------------------------------------------------------------------- */

  const QueryField := "{query}"
  const ContextField := "{context}"

  /** `template.format(query=query, context=context)` for templates whose only
      replacement fields are `{query}` and `{context}`; every other character
      is copied, and substituted text is not scanned again. */
  function Format(template: string, query: string, context: string): string
    decreases |template|
  {
    if template == [] then []
    else if QueryField <= template then query + Format(template[|QueryField|..], query, context)
    else if ContextField <= template then context + Format(template[|ContextField|..], query, context)
    else [template[0]] + Format(template[1..], query, context)
  }

  /** A template without replacement fields is copied unchanged. */
  lemma FormatCopiesLiteralText(template: string, query: string, context: string)
    requires '{' !in template
    ensures Format(template, query, context) == template
  {
    FormatAfterLiteral(template, [], query, context);
    assert template + [] == template;
  }

  /** Literal text in front of the rest of a template is copied unchanged. */
  lemma {:induction false} FormatAfterLiteral(a: string, b: string, query: string, context: string)
    requires '{' !in a
    ensures Format(a + b, query, context) == a + Format(b, query, context)
    decreases |a|
  {
    if a != [] {
      var t := a + b;
      assert t[0] == a[0] != '{';
      assert QueryField[0] == '{' && ContextField[0] == '{';
      assert t[1..] == a[1..] + b;
      FormatAfterLiteral(a[1..], b, query, context);
      assert [a[0]] + a[1..] == a;
    } else {
      assert a + b == b;
    }
  }

  lemma FormatQueryField(rest: string, query: string, context: string)
    ensures Format(QueryField + rest, query, context) == query + Format(rest, query, context)
  {
    var t := QueryField + rest;
    assert QueryField <= t && t[|QueryField|..] == rest;
  }

  lemma FormatContextField(rest: string, query: string, context: string)
    ensures Format(ContextField + rest, query, context) == context + Format(rest, query, context)
  {
    var t := ContextField + rest;
    assert t[1] == 'c' != QueryField[1];
    assert ContextField <= t && t[|ContextField|..] == rest;
  }

  /** A template of the shape `a{query}b{context}e`, with literal `a`, `b`, `e`,
      becomes `a`, the query, `b`, the context, `e`. */
  lemma FormatSubstitutesFields(a: string, b: string, e: string, query: string, context: string)
    requires '{' !in a && '{' !in b && '{' !in e
    ensures Format(a + QueryField + b + ContextField + e, query, context) == a + query + b + context + e
  {
    var t2 := ContextField + e;
    var t1 := QueryField + (b + t2);
    assert a + QueryField + b + ContextField + e == a + t1;
    calc {
      Format(a + t1, query, context);
    == { FormatAfterLiteral(a, t1, query, context); }
      a + Format(t1, query, context);
    == { FormatQueryField(b + t2, query, context); }
      a + (query + Format(b + t2, query, context));
    == { FormatAfterLiteral(b, t2, query, context); }
      a + (query + (b + Format(t2, query, context)));
    == { FormatContextField(e, query, context); }
      a + (query + (b + (context + Format(e, query, context))));
    == { FormatAfterLiteral(e, [], query, context); assert e + [] == e; }
      a + (query + (b + (context + e)));
    }
  }
}
