# Ethiopian Gena card builder: state and text rules

A model of the event handlers of the Gena greeting-card builder
(`src/App.tsx`). The form edits a draft card: recipient, message, verse
reference and verse text. "Generate card" copies the draft into the
previewed card under per-field fallback rules. A generated blessing or a
generated verse updates draft and preview directly. An image can be set from
a URL or from the built-in images. Previous/next buttons move through the
three form sections. The exported image gets a file name derived from the
recipient.

The model is split into modules that follow these rules:

| file | what it models |
|---|---|
| `Text.dfy` | JavaScript's whitespace class (`trim`, `\s`), `\d`, `\p{L}` and the `a \|\| b` fallback on strings |
| `Split.dfy` | `split` on one character, and `join` as its inverse |
| `Citation.dfy` | the cleanup regex `/\s+[\p{L}’'`-]+\s?\d+:\d+(?:-\d+)?$/u` and `replace` with it: a matcher over positions of the text and the leftmost-match search |
| `Verse.dfy` | how a generated verse response is split into reference and text |
| `Cards.dfy` | the card value, the default texts, and the rules by which draft and generated text become the preview |
| `Sections.dfy` | the three form sections and the clamped section index |
| `Download.dfy` | the download file name |
| `App.dfy` | the component state as a class whose methods are the handlers |

The handlers work by calling state setters in sequence. `App.CardState`
therefore holds the draft, preview, image and section fields as mutable
fields, and each handler is a method that says exactly which fields it
changes and what they become. The string expressions the handlers evaluate
are functions with lemmas.

The verse parser follows the code, not the informal description of the
response format. When the response has no `|`, `split("|")` gives a single
piece. The reference is then the whole trimmed response, not the empty
string, and the text is that same trimmed response, cleaned
(`Verse.ParseWithoutSeparator`).

## Model

| member | source | states |
|---|---|---|
| Text.IsSpace | src/App.tsx:146-148 | defines the whitespace `trim` removes and `\s` matches: ECMAScript's WhiteSpace and LineTerminator characters |
| Text.IsDigit | src/App.tsx:148 | defines `\d`, the ASCII digits `0` to `9` (also under the `u` flag) |
| Text.IsLetter | src/App.tsx:148 | defines the letters accepted for `\p{L}`: the letters of the Latin, Greek, Cyrillic and Ethiopic blocks, without the punctuation, symbols and unassigned code points in them |
| Text.IsNameChar | src/App.tsx:148 | defines the class `[\p{L}’'`-]` of book-name characters |
| Text.Trim | src/App.tsx:146-147 | `trim` leaves no whitespace at either end. The result is empty exactly when the input is all whitespace. It is the input slice after the leading whitespace run, with only whitespace after it. |
| Text.TrimOfTrimmed | src/App.tsx:148 | trimming text with no whitespace at its ends changes nothing |
| Text.TrimIdempotent | src/App.tsx:147-148 | trimming twice is trimming once |
| Text.OrElse | src/App.tsx:146-147 | `a \|\| b` on strings is `a` unless `a` is empty. It is empty only when both are. |
| Split.SplitOn | src/App.tsx:145 | `split` yields at least one piece, and no piece contains the separator |
| Split.JoinSplit | src/App.tsx:145 | joining the pieces of a split with the separator gives back the input |
| Split.SplitJoin | src/App.tsx:145 | splitting joined separator-free pieces gives back the pieces |
| Split.SingleIffNoSeparator | src/App.tsx:145 | there is exactly one piece if and only if the separator does not occur |
| Split.FirstPiece | src/App.tsx:145 | the first piece is everything before the first separator, or the whole input |
| Split.SplitAt | src/App.tsx:145 | the first separator splits off the text before it as the first piece, and the rest is split again |
| Verse.ParseVerse | src/App.tsx:145-148 | the parsed reference and text have no whitespace at their ends |
| Verse.ParseWithoutSeparator | src/App.tsx:145-148 | without `\|`, the reference is the trimmed response and the text is the cleaned trimmed response |
| Verse.SecondPiece | src/App.tsx:145 | with the first `\|` at `i` and the next at `j`, the first two pieces are the text before `i` and the text between `i` and `j` |
| Verse.ParseWithSeparator | src/App.tsx:145-148 | The reference is the trimmed text before the first `\|`. The text comes from the piece up to the second `\|`, and anything after that is dropped. An empty piece falls back to the whole response. |
| Verse.ParseJoined | src/App.tsx:145-148 | a response `reference\|text` with no other `\|` and a non-empty text gives the trimmed reference and the cleaned trimmed text |
| Verse.ParseWellFormed | src/App.tsx:145-148 | a response `reference\|text` with trimmed parts, and a text that no citation ends, parses back to exactly those parts |
| Verse.ParseWellFormedNoDigitEnd | src/App.tsx:145-148 | in particular a text not ending in a digit parses back unchanged |
| Verse.ParseWellFormedEndingInNumber | src/App.tsx:145-148 | a text ending in a number that is not a citation (`days 40`) also parses back unchanged |
| Citation.MatchAt | src/App.tsx:148 | defines the regex part by part, from a given part on and anchored at the end (`$`): each part takes its maximal run |
| Citation.CitationAt | src/App.tsx:148 | defines a match of the whole regex starting at a position and running to the end of the text |
| Citation.MatchesCitation | src/App.tsx:148 | defines a whole string being one match of the regex |
| Citation.ShiftCitation | src/App.tsx:148 | whether a citation runs from a position to the end does not depend on the text before it |
| Citation.MatchesShape | src/App.tsx:148 | every string of the pattern's language is matched: whitespace run, name, optional whitespace, chapter, `:`, verse, optional `-` and end digits |
| Citation.CitationSound | src/App.tsx:148 | every matched string splits into the pattern's parts: whitespace run, name, optional whitespace, chapter, `:`, verse, optional range |
| Citation.MatchesCitationIff | src/App.tsx:148 | the matcher accepts exactly the strings of the pattern's language |
| Citation.PlainReferenceMatches | src/App.tsx:148 | ` Book ch:v` is a citation |
| Citation.CitationBoundaries | src/App.tsx:148 | a citation starts with whitespace and ends the text with a digit |
| Citation.ChapterNoSpace | src/App.tsx:148 | from the chapter number on, a citation holds no whitespace |
| Citation.NoCitationAfterName | src/App.tsx:148 | no second citation starts inside the name, numbers or range of one |
| Citation.CitationExtendsLeft | src/App.tsx:148 | a whitespace character in front of a citation extends it |
| Citation.CitationStartsInLeadingSpace | src/App.tsx:148 | two citation starts in one text are separated only by whitespace |
| Citation.FindFrom | src/App.tsx:148 | the search returns a position where a citation starts and runs to the end |
| Citation.FindFromLeftmost | src/App.tsx:148 | no position before the one found (or any position, when none is found) starts a citation |
| Citation.FindNotAfterSpace | src/App.tsx:148 | the leftmost citation is not preceded by whitespace |
| Citation.StripCitation | src/App.tsx:148 | `replace` only removes a suffix. The result is a prefix of the text, and what it removed is a citation. A shortened result does not end in whitespace. |
| Citation.StripLeftmost | src/App.tsx:148 | no citation starts inside the kept prefix |
| Citation.StripWithoutCitation | src/App.tsx:148 | text with no citation at its end is unchanged |
| Citation.StripAt | src/App.tsx:148 | a citation that does not follow whitespace is exactly where the text is cut |
| Citation.StripTrailingCitation | src/App.tsx:148 | a body not ending in whitespace, followed by one citation, loses exactly the citation |
| Citation.NoCitationWithoutSpace | src/App.tsx:148 | no citation starts at a position without whitespace |
| Citation.CleanWithoutMatch | src/App.tsx:148 | trimmed text that no citation ends is unchanged by the cleanup |
| Citation.NoDigitEndNothingStripped | src/App.tsx:148 | text not ending in a digit is unchanged |
| Citation.CleanCitation | src/App.tsx:148 | the cleaned text has no whitespace at its ends |
| Citation.CleanOfTrimmed | src/App.tsx:147-148 | on trimmed input the final `trim` removes nothing |
| Citation.CleanRemovesTrailingCitation | src/App.tsx:148 | cleanup of a body followed by one citation gives the trimmed body |
| Citation.PunctuationIsNoName | src/App.tsx:148 | a Greek punctuation mark (U+0387) is not a book name, so `Amen ·1:2` is kept as it is |
| Citation.StripsRestatedReference | src/App.tsx:148 | a restated ` Book ch:v` at the end of the verse is removed, together with the space before it |
| Cards.DefaultMessage | src/App.tsx:9 | the blessing used when the message is blank |
| Cards.FallbackRecipient | src/App.tsx:10 | the name `"friend"` used when the recipient is blank |
| Cards.InitialRecipient | src/App.tsx:55-57 | the initial draft and previewed recipient, the Amharic word for "name" |
| Cards.InitialVerseRef | src/App.tsx:61 | the reference the preview shows first, `Luke 2:10-11` |
| Cards.InitialVerseText | src/App.tsx:62 | the verse text the preview shows first |
| Cards.ShownRecipient | src/App.tsx:226 | the shown recipient is the trimmed draft name, or `"friend"` when that is blank. It is never empty. |
| Cards.Committed | src/App.tsx:225-229 | Recipient and message are never empty after a commit. Each verse field is the trimmed draft or the previous preview. |
| Cards.CommitUsesDraft | src/App.tsx:226-229 | a non-blank draft field becomes the trimmed draft field |
| Cards.CommitFallbacks | src/App.tsx:226-229 | A blank recipient gives `"friend"` and a blank message gives the default message. A blank verse field keeps the previewed one. |
| Cards.CommitNeverBlanksVerse | src/App.tsx:228-229 | a commit never blanks a verse field the preview showed |
| Cards.CommitIdempotent | src/App.tsx:225-229 | committing twice with the same draft is committing once |
| Cards.CommitTrimmed | src/App.tsx:226-229 | every committed field has no whitespace at its ends |
| Cards.CommitFixedPoint | src/App.tsx:225-229 | a trimmed, non-blank card committed onto itself is unchanged |
| Cards.DraftWithVerse | src/App.tsx:149-150 | a fetched verse always overwrites both draft verse fields and nothing else |
| Cards.PreviewWithVerse | src/App.tsx:151-152 | a preview verse field is replaced only by a non-empty parsed value, otherwise kept |
| Cards.CommitAfterVerse | src/App.tsx:149-152 | generating right after a verse fetch shows the fetched verse the preview already has |
| Cards.PreviewWithGreeting | src/App.tsx:127-128 | the previewed message is the generated blessing as it is, and the recipient follows the commit rule |
| Cards.CommitAfterGreeting | src/App.tsx:126-128 | generating right after a non-blank blessing keeps the trimmed blessing |
| Sections.SectionIds | src/App.tsx:86-90 | the three form sections in display order: greeting, image, actions |
| Sections.Clamp | src/App.tsx:286 | the clamped index is a valid section. A valid request is kept. A request below the range gives the first section and one above it gives the last. |
| Sections.ClampNearest | src/App.tsx:286 | the clamped index is the valid index nearest to the request |
| Sections.ClampMonotone | src/App.tsx:286 | clamping keeps the order of requests |
| Sections.ClampIdempotent | src/App.tsx:286 | clamping twice is clamping once |
| Sections.PrevStep | src/App.tsx:290-292 | "previous" stays on the first section, otherwise moves back by one |
| Sections.NextStep | src/App.tsx:294-296 | "next" stays on the last section, otherwise moves forward by one |
| Sections.NextThenPrev | src/App.tsx:290-296 | next then previous returns to the start, except from the last section |
| Download.DashRuns | src/App.tsx:182 | replacing whitespace runs by `-` never lengthens the text, and empties only the empty text |
| Download.DashRunsNoSpace | src/App.tsx:182 | no whitespace is left after the replacement |
| Download.DashRunsOfNoSpace | src/App.tsx:182 | text without whitespace is unchanged |
| Download.DashRunsIdempotent | src/App.tsx:182 | replacing twice is replacing once |
| Download.DashRunsLeadingRun | src/App.tsx:182 | a leading whitespace run becomes one leading `-` |
| Download.DashRunsAppend | src/App.tsx:182 | when the first part does not end in whitespace, the replacement works part by part |
| Download.DownloadName | src/App.tsx:182 | the file name has no whitespace and ends with `-gena-card.png` |
| Download.DownloadNameEmpty | src/App.tsx:182 | an empty recipient gives `friend-gena-card.png` |
| Download.DownloadNameOfPlain | src/App.tsx:182 | a recipient without whitespace is used as it is |
| Download.DownloadNameLeadingSpace | src/App.tsx:182 | the recipient is not trimmed: leading whitespace becomes a leading `-` |
| Download.DownloadNameTwoWords | src/App.tsx:182 | two words with any whitespace between them are joined by one `-` |
| App.BuiltInImages | src/App.tsx:47-52 | the four image paths that ship with the builder |
| App.ImageFromUrl | src/App.tsx:248-256 | a blank URL box clears the image; otherwise the image is the trimmed, non-empty URL |
| App.ImageFromTrimmedUrl | src/App.tsx:248-256 | a URL without surrounding whitespace is taken as it is |
| App.BuiltInImagesReapply | src/App.tsx:47-52 | applying the URL box after picking a built-in image keeps that image |
| App.CardState.Valid | src/App.tsx:55-73 | the state invariant: the preview names a recipient and shows a verse reference and text, and the section index is valid |
| App.CardState.constructor | src/App.tsx:55-73 | the initial draft, preview, image and section state, which satisfies the state invariant |
| App.CardState.Commit | src/App.tsx:225-231 | The preview becomes the committed draft, and recipient and message are non-empty. Only the four preview fields change, and the invariant is kept. |
| App.CardState.SetPreview | src/App.tsx:226-229 | the four preview setters set the preview to the given card |
| App.CardState.ApplyGreeting | src/App.tsx:126-128 | The draft message becomes the blessing, and the preview follows `PreviewWithGreeting`. Verse and section are unchanged. |
| App.CardState.ApplyVerse | src/App.tsx:145-152 | the draft and the preview follow `DraftWithVerse` and `PreviewWithVerse` of the parsed response, keeping the invariant |
| App.CardState.StoreVerse | src/App.tsx:149-152 | the four verse setters store a parsed verse |
| App.CardState.ApplyImageUrl | src/App.tsx:248-256 | the image becomes `ImageFromUrl` of the URL box, the box is unchanged, and the invariant is kept |
| App.CardState.SelectBuiltInImage | src/App.tsx:279-283 | picking a built-in image sets both the image and the URL box to it, keeping the invariant |
| App.CardState.ScrollTo | src/App.tsx:285-288 | the section index becomes the clamped request |
| App.CardState.Prev | src/App.tsx:290-292 | the index stays at 0 or moves back by one, staying valid |
| App.CardState.Next | src/App.tsx:294-296 | the index stays at the last section or moves forward by one, staying valid |

## Left out

- Text.IsLetter: accepts only a subset of `\p{L}`: the Latin letters up to U+02AF, the Greek letters from U+0386 to U+03FF, the Cyrillic letters up to U+052F and the Ethiopic syllables U+1200 to U+135A. Letters of other scripts are not accepted, so a book name written in them is not recognised as part of a citation. The full Unicode letter table is not reproduced.
- Rendering, layout and styling, including the card scale and image height, are left out: they are presentation.
- The Gemini client is left out (`src/lib/gemini.ts` is not part of this model). A generated blessing or verse is an arbitrary string argument of `ApplyGreeting` or `ApplyVerse`. The failure paths of the two handlers only set the status and error texts, which are not modelled.
- The arguments the handlers pass to the generator (`recipient || fallbackRecipient` and the previewed message) are not modelled, since only the generator uses them.
- The image is left out of the download handler. That covers `toPng` rasterisation, the DOM style override and restore, and the click on the download link. Only the file name is modelled.
- The clipboard, native share, `window.open` share links, `FileReader` image upload and `encodeURIComponent` are left out: they are browser services. The share note (src/App.tsx:104-107) is left out with them, because only those services read it.
- The status message, its timer, the error message and the busy flags are left out. These are timing and display details.
- Concurrency is left out. A handler's awaited request and the state updates after it are one atomic step. React's closures read the state as it was when the handler started, so edits made while a request is pending are not modelled.
- The form's `onChange` setters only store typed text into the draft fields, which the model assigns directly. The Amharic-preference toggle only affects the generator's prompt.
- Which section the rendering shows for the index is left out, as presentation. Only the clamped index is modelled.
