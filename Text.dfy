/** Character classes and the string operations the card builder uses from
    JavaScript: `String.prototype.trim`, the `\s`, `\d` and `\p{L}` regex
    classes, and the `a || b` fallback on strings. */
module Text {

  /** JavaScript whitespace: what `trim` removes and what `\s` matches
      (WhiteSpace and LineTerminator of ECMAScript). */
  predicate IsSpace(c: char) {
    ('\t' <= c <= '\r') || c == ' ' || c == '\U{A0}' || c == '\U{1680}'
    || ('\U{2000}' <= c <= '\U{200A}') || c == '\U{2028}' || c == '\U{2029}'
    || c == '\U{202F}' || c == '\U{205F}' || c == '\U{3000}' || c == '\U{FEFF}'
  }

  /** `\d`: an ASCII decimal digit, also under the `u` flag. */
  predicate IsDigit(c: char) {
    '0' <= c <= '9'
  }

  /** A subset of `\p{L}`: the letters of the Latin, Greek, Cyrillic and
      Ethiopic scripts that a card is written in. Every character accepted is
      a letter; the punctuation, symbols and unassigned code points inside
      these blocks are left out range by range. */
  predicate IsLetter(c: char) {
    ('A' <= c <= 'Z') || ('a' <= c <= 'z') || c == '\U{AA}' || c == '\U{B5}' || c == '\U{BA}'
    || ('\U{C0}' <= c <= '\U{D6}') || ('\U{D8}' <= c <= '\U{F6}') || ('\U{F8}' <= c <= '\U{2AF}')
    || IsGreekLetter(c)
    || ('\U{400}' <= c <= '\U{481}') || ('\U{48A}' <= c <= '\U{52F}')
    || IsEthiopicLetter(c)
  }

  /** The letters of the Greek block from U+0386 on, without U+0387 (a
      punctuation mark), U+03F6 (a symbol) and the unassigned U+038B,
      U+038D and U+03A2. */
  predicate IsGreekLetter(c: char) {
    c == '\U{386}' || ('\U{388}' <= c <= '\U{38A}') || c == '\U{38C}'
    || ('\U{38E}' <= c <= '\U{3A1}') || ('\U{3A3}' <= c <= '\U{3F5}') || ('\U{3F7}' <= c <= '\U{3FF}')
  }

  /** The Ethiopic syllables U+1200 to U+135A, without the unassigned code
      points between them. */
  predicate IsEthiopicLetter(c: char) {
    ('\U{1200}' <= c <= '\U{1248}') || ('\U{124A}' <= c <= '\U{124D}') || ('\U{1250}' <= c <= '\U{1256}')
    || c == '\U{1258}' || ('\U{125A}' <= c <= '\U{125D}') || ('\U{1260}' <= c <= '\U{1288}')
    || ('\U{128A}' <= c <= '\U{128D}') || ('\U{1290}' <= c <= '\U{12B0}') || ('\U{12B2}' <= c <= '\U{12B5}')
    || ('\U{12B8}' <= c <= '\U{12BE}') || c == '\U{12C0}' || ('\U{12C2}' <= c <= '\U{12C5}')
    || ('\U{12C8}' <= c <= '\U{12D6}') || ('\U{12D8}' <= c <= '\U{1310}') || ('\U{1312}' <= c <= '\U{1315}')
    || ('\U{1318}' <= c <= '\U{135A}')
  }

  /** `[\p{L}’'`-]`: a letter or one of the marks that occur in book names. */
  predicate IsNameChar(c: char) {
    IsLetter(c) || c == '\U{2019}' || c == '\'' || c == '`' || c == '-'
  }

  /** The character classes whose runs the regular expressions match. */
  datatype CharClass = SpaceClass | NameClass | DigitClass

  predicate InClass(k: CharClass, c: char) {
    match k
    case SpaceClass => IsSpace(c)
    case NameClass => IsNameChar(c)
    case DigitClass => IsDigit(c)
  }

  lemma ClassesDisjoint(c: char)
    ensures IsNameChar(c) ==> !IsSpace(c) && !IsDigit(c)
    ensures IsDigit(c) ==> !IsSpace(c)
  {
  }

  predicate AllSpace(s: string) {
    forall i :: 0 <= i < |s| ==> IsSpace(s[i])
  }

  predicate NoSpace(s: string) {
    forall i :: 0 <= i < |s| ==> !IsSpace(s[i])
  }

  lemma NoSpaceConcat(a: string, b: string)
    requires NoSpace(a) && NoSpace(b)
    ensures NoSpace(a + b)
  {
    assert forall i :: 0 <= i < |a + b| ==> (a + b)[i] == if i < |a| then a[i] else b[i - |a|];
  }

  /** Neither end of `s` is whitespace. */
  predicate IsTrimmed(s: string) {
    s == [] || (!IsSpace(s[0]) && !IsSpace(s[|s| - 1]))
  }

  /** Length of the longest prefix of `s` whose characters all satisfy the class `p`. */
  function Span(p: CharClass, s: string): (n: nat)
    ensures n <= |s|
  {
    if s == [] || !InClass(p, s[0]) then 0 else 1 + Span(p, s[1..])
  }

  /** The run `Span` measures is maximal: every character in it satisfies
      the class `p`, and the one after it does not. */
  lemma {:induction false} SpanRun(p: CharClass, s: string)
    ensures forall i :: 0 <= i < Span(p, s) ==> InClass(p, s[i])
    ensures Span(p, s) < |s| ==> !InClass(p, s[Span(p, s)])
  {
    if s != [] && InClass(p, s[0]) {
      SpanRun(p, s[1..]);
      assert forall i :: 1 <= i < |s| ==> s[1..][i - 1] == s[i];
    }
  }

  /** The longest run of characters of a class stops exactly where the next
      character is outside it. */
  lemma {:induction false} SpanOfRun(p: CharClass, x: string, y: string)
    requires forall i :: 0 <= i < |x| ==> InClass(p, x[i])
    requires y == [] || !InClass(p, y[0])
    ensures Span(p, x + y) == |x|
    decreases |x|
  {
    if x != [] {
      assert (x + y)[1..] == x[1..] + y;
      SpanOfRun(p, x[1..], y);
    } else {
      assert x + y == y;
    }
  }

  /** Length of the longest suffix of `s` that is all whitespace. */
  function SpanSpaceEnd(s: string): (n: nat)
    ensures n <= |s|
    ensures forall i :: |s| - n <= i < |s| ==> IsSpace(s[i])
    ensures n < |s| ==> !IsSpace(s[|s| - 1 - n])
  {
    if s == [] || !IsSpace(s[|s| - 1]) then 0 else 1 + SpanSpaceEnd(s[..|s| - 1])
  }

  /** `s.trim()`: the middle of `s` once whitespace is removed from both ends. */
  function Trim(s: string): (r: string)
    ensures IsTrimmed(r)
    ensures r == [] <==> AllSpace(s)
    ensures var i := Span(SpaceClass, s);
      i + |r| <= |s| && r == s[i..i + |r|] && AllSpace(s[i + |r|..])
  {
    SpanRun(SpaceClass, s);
    var t := s[Span(SpaceClass, s)..];
    t[..|t| - SpanSpaceEnd(t)]
  }

  /** JavaScript's `a || b` on strings: `b` exactly when `a` is empty. */
  function OrElse(a: string, b: string): (r: string)
    ensures r != [] <==> a != [] || b != []
    ensures r == a || r == b
    ensures a != [] ==> r == a
  {
    if a == [] then b else a
  }

  /** Trimming a string with no whitespace at either end changes nothing. */
  lemma TrimOfTrimmed(s: string)
    requires IsTrimmed(s)
    ensures Trim(s) == s
  {
    if s != [] {
      assert Span(SpaceClass, s) == 0;
      assert SpanSpaceEnd(s) == 0;
    }
  }

  /** `trim` is idempotent. */
  lemma TrimIdempotent(s: string)
    ensures Trim(Trim(s)) == Trim(s)
  {
    TrimOfTrimmed(Trim(s));
  }
}
