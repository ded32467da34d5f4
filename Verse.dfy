/** Parsing of the text the verse generator returns, expected as
    `<reference>|<verse text>`. */
module Verse {
  import opened Text
  import opened Split
  import opened Citation

  datatype ParsedVerse = ParsedVerse(reference: string, text: string)

  /** What the verse handler derives from a response before it updates state:
      `const [refPart, textPart] = response.split("|")` keeps the first two
      pieces only; the reference is the trimmed first piece; the text is the
      trimmed second piece, or the whole response when that piece is missing or
      empty, with one trailing citation removed. */
  function ParseVerse(response: string): (p: ParsedVerse)
    ensures IsTrimmed(p.reference) && IsTrimmed(p.text)
  {
    var pieces := SplitOn(response, '|');
    var refPart := pieces[0];
    var textPart := if |pieces| > 1 then pieces[1] else "";
    ParsedVerse(Trim(OrElse(refPart, "")), CleanCitation(Trim(OrElse(textPart, response))))
  }

  /** Without a `|`, the first piece is the whole response, so reference and
      text both come from it. */
  lemma ParseWithoutSeparator(response: string)
    requires '|' !in response
    ensures ParseVerse(response).reference == Trim(response)
    ensures ParseVerse(response).text == CleanCitation(Trim(response))
  {
  }

  /** The first two pieces of the split when the first `|` is at `i` and
      the next one (or the end) at `j`. */
  lemma SecondPiece(response: string, i: nat, j: nat)
    requires i < j <= |response|
    requires response[i] == '|' && '|' !in response[..i]
    requires j == |response| || response[j] == '|'
    requires '|' !in response[i + 1..j]
    ensures var pieces := SplitOn(response, '|');
      pieces[0] == response[..i] && |pieces| > 1 && pieces[1] == response[i + 1..j]
  {
    SplitAt(response, '|', i);
    var rest := response[i + 1..];
    assert rest[..j - i - 1] == response[i + 1..j];
    FirstPieceUpTo(rest, '|', j - i - 1);
  }

  /** With a first `|` at `i` and the next `|` (or the end) at `j`: the
      reference is the trimmed text before `i`; the text comes from the piece
      between `i` and `j`, anything after `j` is dropped, and an empty piece
      falls back to the whole response. */
  lemma ParseWithSeparator(response: string, i: nat, j: nat)
    requires i < j <= |response|
    requires response[i] == '|' && '|' !in response[..i]
    requires j == |response| || response[j] == '|'
    requires '|' !in response[i + 1..j]
    ensures ParseVerse(response).reference == Trim(response[..i])
    ensures ParseVerse(response).text
         == CleanCitation(Trim(if i + 1 == j then response else response[i + 1..j]))
  {
    var pieces := SplitOn(response, '|');
    SecondPiece(response, i, j);
    assert pieces[0] == response[..i] && |pieces| > 1 && pieces[1] == response[i + 1..j];
  }

  /** A response made of a reference, `|`, and a non-empty text without `|`
      is split at that `|`: the reference is trimmed and the text cleaned. */
  lemma ParseJoined(reference: string, text: string)
    requires '|' !in reference && text != [] && '|' !in text
    ensures ParseVerse(reference + "|" + text) == ParsedVerse(Trim(reference), CleanCitation(Trim(text)))
  {
    var response := reference + "|" + text;
    var i, j := |reference|, |response|;
    assert response[..i] == reference;
    assert response[i + 1..j] == text;
    ParseWithSeparator(response, i, j);
  }

  /** The well-formed response of the generator: a trimmed reference, `|`,
      and a trimmed text with no `|` that no citation ends, is split into
      exactly those two parts. */
  lemma ParseWellFormed(reference: string, text: string)
    requires IsTrimmed(reference) && '|' !in reference
    requires IsTrimmed(text) && text != [] && '|' !in text && FindFrom(text, 0).None?
    ensures ParseVerse(reference + "|" + text) == ParsedVerse(reference, text)
  {
    ParseJoined(reference, text);
    TrimOfTrimmed(reference);
    TrimOfTrimmed(text);
    CleanWithoutMatch(text);
  }

  /** In particular a text that does not end in a digit comes back unchanged. */
  lemma ParseWellFormedNoDigitEnd(reference: string, text: string)
    requires IsTrimmed(reference) && '|' !in reference
    requires IsTrimmed(text) && text != [] && '|' !in text && !IsDigit(text[|text| - 1])
    ensures ParseVerse(reference + "|" + text) == ParsedVerse(reference, text)
  {
    if FindFrom(text, 0).Some? {
      CitationBoundaries(text, FindFrom(text, 0).value);
    }
    ParseWellFormed(reference, text);
  }

  /** A text ending in a number that is not a citation, such as `... 40`,
      also comes back unchanged. */
  lemma ParseWellFormedEndingInNumber(reference: string)
    requires IsTrimmed(reference) && '|' !in reference
    ensures ParseVerse(reference + "|" + "days 40") == ParsedVerse(reference, "days 40")
  {
    ParseWellFormed(reference, "days 40");
  }
}
