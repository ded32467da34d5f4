/** Removal of a trailing repeated citation from a generated verse text:
    `text.replace(/\s+[\p{L}’'`-]+\s?\d+:\d+(?:-\d+)?$/u, "").trim()`.
    The matcher works on positions of one string, as a regex engine does. */
module Citation {
  import opened Text
  import opened Optional

  predicate AllName(s: string) {
    forall i :: 0 <= i < |s| ==> IsNameChar(s[i])
  }

  predicate AllDigits(s: string) {
    forall i :: 0 <= i < |s| ==> IsDigit(s[i])
  }

  /** The parts of `\s+[\p{L}’'`-]+\s?\d+:\d+(?:-\d+)?`, in order. */
  datatype Part =
    | LeadingSpace  // `\s+`
    | BookName      // `[\p{L}’'`-]+`
    | Gap           // `\s?`
    | Chapter       // `\d+:`
    | VerseNum      // `\d+`, then the optional group
    | RangeEnd      // `\d+` of the group `(?:-\d+)?`

  function Rank(p: Part): nat {
    match p
    case LeadingSpace => 0
    case BookName => 1
    case Gap => 2
    case Chapter => 3
    case VerseNum => 4
    case RangeEnd => 5
  }

  /** Where the run of characters of class `k` that starts at position `i` of `t` ends. */
  function RunEnd(k: CharClass, t: string, i: nat): (n: nat)
    requires i <= |t|
    ensures i <= n <= |t|
    decreases |t| - i
  {
    if i == |t| || !InClass(k, t[i]) then i else RunEnd(k, t, i + 1)
  }

  /** The run is maximal: every character in it is of the class, and the one
      after it is not. */
  lemma {:induction false} RunEndRun(k: CharClass, t: string, i: nat)
    requires i <= |t|
    ensures forall m :: i <= m < RunEnd(k, t, i) ==> InClass(k, t[m])
    ensures RunEnd(k, t, i) < |t| ==> !InClass(k, t[RunEnd(k, t, i)])
    decreases |t| - i
  {
    if i < |t| && InClass(k, t[i]) {
      RunEndRun(k, t, i + 1);
    }
  }

  /** A run of the class that is followed by the end or by another character
      is exactly the run `RunEnd` measures. */
  lemma {:induction false} RunOver(k: CharClass, t: string, i: nat, j: nat)
    requires i <= j <= |t|
    requires forall m :: i <= m < j ==> InClass(k, t[m])
    requires j == |t| || !InClass(k, t[j])
    ensures RunEnd(k, t, i) == j
    decreases j - i
  {
    if i < j {
      RunOver(k, t, i + 1, j);
    }
  }

  /** A run inside the second part of a concatenation does not see the first part. */
  lemma {:induction false} RunShift(k: CharClass, a: string, b: string, i: nat)
    requires i <= |b|
    ensures RunEnd(k, a + b, |a| + i) == |a| + RunEnd(k, b, i)
    decreases |b| - i
  {
    if i < |b| {
      assert (a + b)[|a| + i] == b[i];
      if InClass(k, b[i]) {
        RunShift(k, a, b, i + 1);
      }
    }
  }

  /** Does the rest of `t` from position `i` match the pattern from part `p`
      on, up to the end (the `$` anchor)?
      Each part takes the longest run it can. Whitespace, name characters and
      digits are pairwise disjoint, so a shorter run would leave a character
      the next part cannot accept: a backtracking matcher has no other way to
      match. */
  predicate MatchAt(p: Part, t: string, i: nat)
    requires i <= |t|
    decreases 5 - Rank(p)
  {
    match p
    case LeadingSpace =>
      var a := RunEnd(SpaceClass, t, i);
      a > i && MatchAt(BookName, t, a)
    case BookName =>
      var b := RunEnd(NameClass, t, i);
      b > i && MatchAt(Gap, t, b)
    case Gap =>
      if i < |t| && IsSpace(t[i]) then MatchAt(Chapter, t, i + 1) else MatchAt(Chapter, t, i)
    case Chapter =>
      var d := RunEnd(DigitClass, t, i);
      d > i && d < |t| && t[d] == ':' && MatchAt(VerseNum, t, d + 1)
    case VerseNum =>
      var e := RunEnd(DigitClass, t, i);
      e > i && (e == |t| || (t[e] == '-' && MatchAt(RangeEnd, t, e + 1)))
    case RangeEnd =>
      i < |t| && RunEnd(DigitClass, t, i) == |t|
  }

  /** Does a citation start at position `i` of `t` and run to its end? */
  predicate CitationAt(t: string, i: nat)
    requires i <= |t|
  {
    MatchAt(LeadingSpace, t, i)
  }

  /** Is all of `u` a citation? */
  predicate MatchesCitation(u: string) {
    CitationAt(u, 0)
  }

  // Whether the rest of a string matches from a part on does not depend on
  // what precedes it: one lemma per part, from the last part back.

  lemma ShiftRangeEnd(a: string, b: string, i: nat)
    requires i <= |b|
    ensures MatchAt(RangeEnd, a + b, |a| + i) == MatchAt(RangeEnd, b, i)
  {
    RunShift(DigitClass, a, b, i);
  }

  lemma ShiftVerse(a: string, b: string, i: nat)
    requires i <= |b|
    ensures MatchAt(VerseNum, a + b, |a| + i) == MatchAt(VerseNum, b, i)
  {
    RunShift(DigitClass, a, b, i);
    var e := RunEnd(DigitClass, b, i);
    if e < |b| {
      assert (a + b)[|a| + e] == b[e];
      ShiftRangeEnd(a, b, e + 1);
    }
  }

  lemma ShiftChapter(a: string, b: string, i: nat)
    requires i <= |b|
    ensures MatchAt(Chapter, a + b, |a| + i) == MatchAt(Chapter, b, i)
  {
    RunShift(DigitClass, a, b, i);
    var d := RunEnd(DigitClass, b, i);
    if d < |b| {
      assert (a + b)[|a| + d] == b[d];
      ShiftVerse(a, b, d + 1);
    }
  }

  lemma ShiftGap(a: string, b: string, i: nat)
    requires i <= |b|
    ensures MatchAt(Gap, a + b, |a| + i) == MatchAt(Gap, b, i)
  {
    ShiftChapter(a, b, i);
    if i < |b| {
      assert (a + b)[|a| + i] == b[i];
      ShiftChapter(a, b, i + 1);
    }
  }

  lemma ShiftBookName(a: string, b: string, i: nat)
    requires i <= |b|
    ensures MatchAt(BookName, a + b, |a| + i) == MatchAt(BookName, b, i)
  {
    RunShift(NameClass, a, b, i);
    ShiftGap(a, b, RunEnd(NameClass, b, i));
  }

  /** A citation at the end of a string is one wherever that string is appended. */
  lemma ShiftCitation(a: string, b: string, i: nat)
    requires i <= |b|
    ensures CitationAt(a + b, |a| + i) == CitationAt(b, i)
  {
    RunShift(SpaceClass, a, b, i);
    ShiftBookName(a, b, RunEnd(SpaceClass, b, i));
  }

  /** `\d+(?:-\d+)?` accepts verse digits with an optional `-` and end digits. */
  lemma VerseShape(vs: string, range: string)
    requires |vs| > 0 && AllDigits(vs) && IsRangeSuffix(range)
    ensures MatchAt(VerseNum, vs + range, 0)
  {
    var t := vs + range;
    assert forall m :: 0 <= m < |vs| ==> t[m] == vs[m];
    if range != [] {
      assert t[|vs|] == range[0];
      assert forall m :: |vs| + 1 <= m < |t| ==> t[m] == range[m - |vs|];
      RunOver(DigitClass, t, |vs| + 1, |t|);
    }
    RunOver(DigitClass, t, 0, |vs|);
  }

  /** `\d+:` in front of a verse. */
  lemma ChapterShape(ch: string, rest: string)
    requires |ch| > 0 && AllDigits(ch) && MatchAt(VerseNum, rest, 0)
    ensures MatchAt(Chapter, ch + ([':'] + rest), 0)
  {
    var t := ch + ([':'] + rest);
    assert forall m :: 0 <= m < |ch| ==> t[m] == ch[m];
    assert t[|ch|] == ':';
    RunOver(DigitClass, t, 0, |ch|);
    assert t == (ch + [':']) + rest;
    ShiftVerse(ch + [':'], rest, 0);
  }

  /** `\s?` in front of chapter and verse. */
  lemma GapShape(gap: string, cv: string)
    requires |gap| <= 1 && AllSpace(gap) && MatchAt(Chapter, cv, 0)
    ensures MatchAt(Gap, gap + cv, 0)
    ensures |gap + cv| > 0 && !IsNameChar((gap + cv)[0])
  {
    RunEndRun(DigitClass, cv, 0);
    ClassesDisjoint(cv[0]);
    if gap == [] {
      assert gap + cv == cv;
    } else {
      assert (gap + cv)[0] == gap[0];
      ClassesDisjoint(gap[0]);
      ShiftChapter(gap, cv, 0);
    }
  }

  /** `[\p{L}’'`-]+` in front of the rest. */
  lemma BookNameShape(name: string, rest: string)
    requires |name| > 0 && AllName(name)
    requires MatchAt(Gap, rest, 0) && rest != [] && !IsNameChar(rest[0])
    ensures MatchAt(BookName, name + rest, 0)
  {
    var t := name + rest;
    assert forall m :: 0 <= m < |name| ==> t[m] == name[m];
    assert t[|name|] == rest[0];
    RunOver(NameClass, t, 0, |name|);
    ShiftGap(name, rest, 0);
  }

  /** `\s+` in front of the rest. */
  lemma LeadingSpaceShape(w: string, rest: string)
    requires |w| > 0 && AllSpace(w) && MatchAt(BookName, rest, 0)
    ensures MatchesCitation(w + rest)
  {
    RunEndRun(NameClass, rest, 0);
    ClassesDisjoint(rest[0]);
    var t := w + rest;
    assert forall m :: 0 <= m < |w| ==> t[m] == w[m];
    assert t[|w|] == rest[0];
    RunOver(SpaceClass, t, 0, |w|);
    ShiftBookName(w, rest, 0);
    assert MatchAt(BookName, t, |w|);
  }

  /** The optional group `(?:-\d+)?`: nothing, or `-` followed by digits. */
  predicate IsRangeSuffix(range: string) {
    range == [] || (|range| >= 2 && range[0] == '-' && forall m :: 1 <= m < |range| ==> IsDigit(range[m]))
  }

  /** The parts of a string of the pattern's language: a non-empty
      whitespace run, a non-empty name, at most one whitespace, chapter
      digits, verse digits and the optional range. */
  predicate IsCitationParts(w: string, name: string, gap: string, ch: string, vs: string, range: string) {
    && |w| > 0 && AllSpace(w)
    && |name| > 0 && AllName(name)
    && |gap| <= 1 && AllSpace(gap)
    && |ch| > 0 && AllDigits(ch)
    && |vs| > 0 && AllDigits(vs)
    && IsRangeSuffix(range)
  }

  /** The parts put together in the pattern's order, with `:` between chapter and verse. */
  function Assemble(w: string, name: string, gap: string, ch: string, vs: string, range: string): string {
    w + (name + (gap + (ch + ([':'] + (vs + range)))))
  }

  /** Every string of the pattern's language is matched. */
  lemma MatchesShape(w: string, name: string, gap: string, ch: string, vs: string, range: string)
    requires IsCitationParts(w, name, gap, ch, vs, range)
    ensures MatchesCitation(Assemble(w, name, gap, ch, vs, range))
  {
    VerseShape(vs, range);
    ChapterShape(ch, vs + range);
    GapShape(gap, ch + ([':'] + (vs + range)));
    BookNameShape(name, gap + (ch + ([':'] + (vs + range))));
    LeadingSpaceShape(w, name + (gap + (ch + ([':'] + (vs + range)))));
  }

  // The converse, part by part from the last: the runs a match takes from
  // position `i` on are the pattern's parts, and they make up `t[i..]`.

  /** What follows the verse digits of a match is the optional range. */
  lemma RangeAt(t: string, e: nat)
    requires e <= |t| && (e == |t| || (t[e] == '-' && MatchAt(RangeEnd, t, e + 1)))
    ensures IsRangeSuffix(t[e..])
  {
    if e < |t| {
      RunEndRun(DigitClass, t, e + 1);
      assert forall m :: 1 <= m < |t| - e ==> t[e..][m] == t[e + m];
    }
  }

  lemma SoundVerseNum(t: string, i: nat) returns (vs: string, range: string)
    requires i <= |t| && MatchAt(VerseNum, t, i)
    ensures |vs| > 0 && AllDigits(vs) && IsRangeSuffix(range) && t[i..] == vs + range
  {
    var e := RunEnd(DigitClass, t, i);
    RunEndRun(DigitClass, t, i);
    vs, range := t[i..e], t[e..];
    RangeAt(t, e);
    assert t[i..] == vs + range;
  }

  lemma SoundChapter(t: string, i: nat) returns (ch: string, vs: string, range: string)
    requires i <= |t| && MatchAt(Chapter, t, i)
    ensures |ch| > 0 && AllDigits(ch) && |vs| > 0 && AllDigits(vs) && IsRangeSuffix(range)
    ensures t[i..] == ch + ([':'] + (vs + range))
  {
    var d := RunEnd(DigitClass, t, i);
    RunEndRun(DigitClass, t, i);
    ch := t[i..d];
    vs, range := SoundVerseNum(t, d + 1);
    assert t[d..] == [':'] + t[d + 1..];
    assert t[i..] == ch + t[d..];
  }

  lemma SoundGap(t: string, i: nat) returns (gap: string, ch: string, vs: string, range: string)
    requires i <= |t| && MatchAt(Gap, t, i)
    ensures |gap| <= 1 && AllSpace(gap)
    ensures |ch| > 0 && AllDigits(ch) && |vs| > 0 && AllDigits(vs) && IsRangeSuffix(range)
    ensures t[i..] == gap + (ch + ([':'] + (vs + range)))
  {
    var c := if i < |t| && IsSpace(t[i]) then i + 1 else i;
    gap := t[i..c];
    ch, vs, range := SoundChapter(t, c);
    assert t[i..] == gap + t[c..];
  }

  lemma SoundBookName(t: string, i: nat) returns (name: string, gap: string, ch: string, vs: string, range: string)
    requires i <= |t| && MatchAt(BookName, t, i)
    ensures |name| > 0 && AllName(name) && |gap| <= 1 && AllSpace(gap)
    ensures |ch| > 0 && AllDigits(ch) && |vs| > 0 && AllDigits(vs) && IsRangeSuffix(range)
    ensures t[i..] == name + (gap + (ch + ([':'] + (vs + range))))
  {
    var b := RunEnd(NameClass, t, i);
    RunEndRun(NameClass, t, i);
    name := t[i..b];
    gap, ch, vs, range := SoundGap(t, b);
    assert t[i..] == name + t[b..];
  }

  /** The leading whitespace run from `i`, split off the rest of `t`. */
  lemma SpaceRunSlice(t: string, i: nat) returns (w: string)
    requires i <= |t|
    ensures w == t[i..RunEnd(SpaceClass, t, i)] && AllSpace(w)
    ensures t[i..] == w + t[RunEnd(SpaceClass, t, i)..]
  {
    RunEndRun(SpaceClass, t, i);
    w := t[i..RunEnd(SpaceClass, t, i)];
  }

  lemma SoundLeadingSpace(t: string, i: nat)
      returns (w: string, name: string, gap: string, ch: string, vs: string, range: string)
    requires i <= |t| && MatchAt(LeadingSpace, t, i)
    ensures IsCitationParts(w, name, gap, ch, vs, range)
    ensures t[i..] == Assemble(w, name, gap, ch, vs, range)
  {
    var a := RunEnd(SpaceClass, t, i);
    w := SpaceRunSlice(t, i);
    name, gap, ch, vs, range := SoundBookName(t, a);
  }

  /** Parts that assemble to `u` witness that `u` is in the pattern's language. */
  lemma PartsWitness(u: string, w: string, name: string, gap: string, ch: string, vs: string, range: string)
    requires IsCitationParts(w, name, gap, ch, vs, range) && u == Assemble(w, name, gap, ch, vs, range)
    ensures exists w, name, gap, ch, vs, range ::
      IsCitationParts(w, name, gap, ch, vs, range) && u == Assemble(w, name, gap, ch, vs, range)
  {
  }

  /** Every matched string is a string of the pattern's language: the runs the
      matcher takes are the pattern's parts. */
  lemma CitationSound(u: string)
    requires MatchesCitation(u)
    ensures exists w, name, gap, ch, vs, range ::
      IsCitationParts(w, name, gap, ch, vs, range) && u == Assemble(w, name, gap, ch, vs, range)
  {
    var w, name, gap, ch, vs, range := SoundLeadingSpace(u, 0);
    assert u[0..] == u;
    PartsWitness(u, w, name, gap, ch, vs, range);
  }

  /** The matcher accepts exactly the strings of the pattern's language. */
  lemma MatchesCitationIff(u: string)
    ensures MatchesCitation(u) <==> exists w, name, gap, ch, vs, range ::
      IsCitationParts(w, name, gap, ch, vs, range) && u == Assemble(w, name, gap, ch, vs, range)
  {
    if MatchesCitation(u) {
      CitationSound(u);
    } else if exists w, name, gap, ch, vs, range ::
      IsCitationParts(w, name, gap, ch, vs, range) && u == Assemble(w, name, gap, ch, vs, range) {
      var w, name, gap, ch, vs, range :|
        IsCitationParts(w, name, gap, ch, vs, range) && u == Assemble(w, name, gap, ch, vs, range);
      MatchesShape(w, name, gap, ch, vs, range);
    }
  }

  /** From the chapter on, a citation holds no whitespace. */
  lemma ChapterNoSpace(t: string, i: nat)
    requires i <= |t| && MatchAt(Chapter, t, i)
    ensures forall m :: i <= m < |t| ==> !IsSpace(t[m])
  {
    var d := RunEnd(DigitClass, t, i);
    RunEndRun(DigitClass, t, i);
    var e := RunEnd(DigitClass, t, d + 1);
    RunEndRun(DigitClass, t, d + 1);
    if e < |t| {
      RunEndRun(DigitClass, t, e + 1);
    }
    forall m | i <= m < |t|
      ensures !IsSpace(t[m])
    {
      ClassesDisjoint(t[m]);
    }
  }

  /** Every part from `p` on ends the text with a digit. */
  lemma {:induction false} EndsInDigit(p: Part, t: string, i: nat)
    requires i <= |t| && MatchAt(p, t, i)
    ensures |t| > 0 && IsDigit(t[|t| - 1])
    decreases 5 - Rank(p)
  {
    match p
    case LeadingSpace =>
      EndsInDigit(BookName, t, RunEnd(SpaceClass, t, i));
    case BookName =>
      EndsInDigit(Gap, t, RunEnd(NameClass, t, i));
    case Gap =>
      if i < |t| && IsSpace(t[i]) {
        EndsInDigit(Chapter, t, i + 1);
      } else {
        EndsInDigit(Chapter, t, i);
      }
    case Chapter =>
      EndsInDigit(VerseNum, t, RunEnd(DigitClass, t, i) + 1);
    case VerseNum =>
      var e := RunEnd(DigitClass, t, i);
      RunEndRun(DigitClass, t, i);
      if e < |t| {
        EndsInDigit(RangeEnd, t, e + 1);
      }
    case RangeEnd =>
      RunEndRun(DigitClass, t, i);
  }

  /** A citation starts with whitespace and ends the text with a digit. */
  lemma CitationBoundaries(t: string, i: nat)
    requires i <= |t| && CitationAt(t, i)
    ensures i < |t| && IsSpace(t[i]) && IsDigit(t[|t| - 1])
  {
    EndsInDigit(LeadingSpace, t, i);
  }

  /** No citation starts in the gap, numbers and range of another. */
  lemma NoCitationAfterGap(t: string, g: nat, j: nat)
    requires g <= j <= |t| && MatchAt(Gap, t, g)
    ensures !CitationAt(t, j)
  {
    var c := if g < |t| && IsSpace(t[g]) then g + 1 else g;
    assert MatchAt(Chapter, t, c);
    ChapterNoSpace(t, c);
    RunEndRun(DigitClass, t, c);
    if j < c {
      // a single whitespace character directly before the chapter digits:
      // the book name would be missing
      ClassesDisjoint(t[c]);
      assert RunEnd(SpaceClass, t, c) == c;
      assert RunEnd(NameClass, t, c) == c;
    }
  }

  /** No citation starts in the name, gap, numbers and range of another. */
  lemma NoCitationAfterName(t: string, n: nat, j: nat)
    requires n <= j <= |t| && MatchAt(BookName, t, n)
    ensures !CitationAt(t, j)
  {
    var b := RunEnd(NameClass, t, n);
    RunEndRun(NameClass, t, n);
    if j < b {
      ClassesDisjoint(t[j]);
    } else {
      NoCitationAfterGap(t, b, j);
    }
  }

  /** One more whitespace character in front of a citation is still a citation. */
  lemma CitationExtendsLeft(t: string, i: nat)
    requires i < |t| && IsSpace(t[i]) && CitationAt(t, i + 1)
    ensures CitationAt(t, i)
  {
    assert RunEnd(SpaceClass, t, i) == RunEnd(SpaceClass, t, i + 1);
  }

  /** Where citations start at two positions, everything between them is
      whitespace: only the leading whitespace run of a match can be shortened. */
  lemma CitationStartsInLeadingSpace(t: string, i: nat, j: nat)
    requires i <= j <= |t| && CitationAt(t, i) && CitationAt(t, j)
    ensures forall m :: i <= m < j ==> IsSpace(t[m])
  {
    var a := RunEnd(SpaceClass, t, i);
    RunEndRun(SpaceClass, t, i);
    if a < j {
      NoCitationAfterName(t, a, j);
    }
  }

  /** The leftmost position from `k` on where a citation starts: the match a
      regex search without the `g` flag reports. */
  function FindFrom(t: string, k: nat): (r: Option<nat>)
    requires k <= |t|
    ensures r.Some? ==> k <= r.value < |t| && CitationAt(t, r.value)
    decreases |t| - k
  {
    if CitationAt(t, k) then
      CitationBoundaries(t, k);
      Some(k)
    else if k == |t| then None
    else FindFrom(t, k + 1)
  }

  /** No position the search passed over starts a citation. */
  lemma {:induction false} FindFromLeftmost(t: string, k: nat, j: nat)
    requires k <= j <= |t|
    requires FindFrom(t, k).None? || j < FindFrom(t, k).value
    ensures !CitationAt(t, j)
    decreases j - k
  {
    if k < j {
      FindFromLeftmost(t, k + 1, j);
    }
  }

  /** The leftmost citation does not follow whitespace: that whitespace
      would have been part of it. */
  lemma FindNotAfterSpace(t: string)
    requires FindFrom(t, 0).Some?
    ensures 0 < FindFrom(t, 0).value ==> !IsSpace(t[FindFrom(t, 0).value - 1])
  {
    var k := FindFrom(t, 0).value;
    if 0 < k && IsSpace(t[k - 1]) {
      CitationExtendsLeft(t, k - 1);
      FindFromLeftmost(t, 0, k - 1);
    }
  }

  /** `t.replace(pattern, "")`: at most one trailing citation is cut off, at
      the leftmost position where one starts. */
  function StripCitation(t: string): (r: string)
    ensures |r| <= |t| && r == t[..|r|]
    ensures |r| < |t| ==> CitationAt(t, |r|)
    ensures r == [] || |r| == |t| || !IsSpace(r[|r| - 1])
  {
    match FindFrom(t, 0)
    case Some(k) =>
      FindNotAfterSpace(t);
      t[..k]
    case None => t
  }

  /** The cut is at the leftmost citation: none starts before it. */
  lemma StripLeftmost(t: string, j: nat)
    requires j < |StripCitation(t)|
    ensures !CitationAt(t, j)
  {
    FindFromLeftmost(t, 0, j);
  }

  /** Text in which no citation ends the string is left unchanged. */
  lemma StripWithoutCitation(t: string)
    requires forall j :: 0 <= j <= |t| ==> !CitationAt(t, j)
    ensures StripCitation(t) == t
  {
  }

  /** The text stored on the card: the stripped text, trimmed. */
  function CleanCitation(t: string): (r: string)
    ensures IsTrimmed(r)
  {
    Trim(StripCitation(t))
  }

  /** A citation at `n` that does not follow whitespace is where the text is cut. */
  lemma StripAt(t: string, n: nat)
    requires n <= |t| && CitationAt(t, n)
    requires n == 0 || !IsSpace(t[n - 1])
    ensures |StripCitation(t)| == n
  {
    var k := |StripCitation(t)|;
    if k > n {
      StripLeftmost(t, n);
    } else if k < n {
      CitationStartsInLeadingSpace(t, k, n);
    }
  }

  /** A text that is a body not ending in whitespace followed by one citation
      loses exactly that citation. */
  lemma StripTrailingCitation(body: string, cite: string)
    requires body == [] || !IsSpace(body[|body| - 1])
    requires MatchesCitation(cite)
    ensures StripCitation(body + cite) == body
  {
    var t := body + cite;
    ShiftCitation(body, cite, 0);
    if body != [] {
      assert t[|body| - 1] == body[|body| - 1];
    }
    StripAt(t, |body|);
    assert t[..|body|] == body;
  }

  /** Text that does not end in a digit is left alone. */
  lemma NoDigitEndNothingStripped(t: string)
    requires t == [] || !IsDigit(t[|t| - 1])
    ensures StripCitation(t) == t
  {
    var k := |StripCitation(t)|;
    if k < |t| {
      CitationBoundaries(t, k);
    }
  }

  /** On already trimmed text, as the handler passes it, the final `trim` after
      the replacement has nothing to remove. */
  lemma CleanOfTrimmed(t: string)
    requires IsTrimmed(t)
    ensures CleanCitation(t) == StripCitation(t)
  {
    var r := StripCitation(t);
    if r != [] {
      assert r[0] == t[0];
    }
    TrimOfTrimmed(r);
  }

  /** Trimmed text that no citation ends comes out of the cleanup unchanged. */
  lemma CleanWithoutMatch(t: string)
    requires IsTrimmed(t) && FindFrom(t, 0).None?
    ensures CleanCitation(t) == t
  {
    assert StripCitation(t) == t;
    TrimOfTrimmed(t);
  }

  /** ` Book ch:v`, a reference written the usual way, is a citation. */
  lemma PlainReferenceMatches(book: string, chapter: string, verse: string)
    requires |book| > 0 && AllName(book)
    requires |chapter| > 0 && AllDigits(chapter) && |verse| > 0 && AllDigits(verse)
    ensures MatchesCitation(" " + (book + (" " + (chapter + (":" + verse)))))
  {
    assert AllSpace(" ");
    assert verse + [] == verse;
    MatchesShape(" ", book, " ", chapter, verse, []);
    assert Assemble(" ", book, " ", chapter, verse, []) == " " + (book + (" " + (chapter + (":" + verse))));
  }

  /** The handler's cleanup removes one trailing citation and the whitespace
      run before it, and nothing else. */
  lemma CleanRemovesTrailingCitation(body: string, cite: string)
    requires body == [] || !IsSpace(body[|body| - 1])
    requires MatchesCitation(cite)
    ensures CleanCitation(body + cite) == Trim(body)
  {
    StripTrailingCitation(body, cite);
  }

  /** A reference the generator restates at the end of the verse, as in
      `... great joy. Luke 2:10`, is removed together with the space before it. */
  lemma StripsRestatedReference(body: string, book: string, chapter: string, verse: string)
    requires body == [] || !IsSpace(body[|body| - 1])
    requires |book| > 0 && AllName(book)
    requires |chapter| > 0 && AllDigits(chapter) && |verse| > 0 && AllDigits(verse)
    ensures CleanCitation(body + (" " + (book + (" " + (chapter + (":" + verse)))))) == Trim(body)
  {
    PlainReferenceMatches(book, chapter, verse);
    StripTrailingCitation(body, " " + (book + (" " + (chapter + (":" + verse)))));
  }

  /** No citation starts where there is no whitespace. */
  lemma NoCitationWithoutSpace(t: string, j: nat)
    requires j <= |t| && (j == |t| || !IsSpace(t[j]))
    ensures !CitationAt(t, j)
  {
    assert RunEnd(SpaceClass, t, j) == j;
  }

  /** The Greek ano teleia (U+0387) is punctuation, not a letter, so it cannot
      stand for a book name: the text is kept as it is. */
  lemma PunctuationIsNoName(t: string)
    requires t == "Amen \U{387}1:2"
    ensures CleanCitation(t) == t
  {
    PunctuationStartsNoCitation(t);
    StripWithoutCitation(t);
    TrimOfTrimmed(t);
  }

  /** In `Amen ·1:2` no position starts a citation. */
  lemma PunctuationStartsNoCitation(t: string)
    requires t == "Amen \U{387}1:2"
    ensures forall j :: 0 <= j <= |t| ==> !CitationAt(t, j)
  {
    forall j | 0 <= j <= |t|
      ensures !CitationAt(t, j)
    {
      if j == 4 {
        assert RunEnd(NameClass, t, 5) == 5;
      } else {
        NoCitationWithoutSpace(t, j);
      }
    }
  }
}
