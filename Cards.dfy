/** The four fields a greeting card shows, and the rules by which the draft
    typed into the form becomes the previewed card. */
module Cards {
  import opened Text
  import opened Verse

  /** The blessing shown when none is written (one sentence, written in pieces). */
  const DefaultMessage: string :=
    "May the warmth of the Gena bonfire, "
    + "the hum of coffee ceremony, "
    + "and the rhythm of Ethiopian drums "
    + "fill every corner of your home this season."

  /** The recipient named when none is written. */
  const FallbackRecipient: string := "friend"

  /** The initial recipient: the Amharic word for "name". */
  const InitialRecipient: string := "\U{1235}\U{121D}"

  /** The verse the card shows before any other is chosen. */
  const InitialVerseRef: string := "Luke 2:10-11"
  const InitialVerseText: string := "\"Fear not, for behold, I bring you good news of great joy... For unto you is born this day in the city of David a Savior, who is Christ the Lord.\""

  /** A card's content: either the draft bound to the form or the preview rendered. */
  datatype Card = Card(recipient: string, message: string, verseRef: string, verseText: string)

  /** The recipient a card shows for a typed name: the trimmed name, or the fallback. */
  function ShownRecipient(typed: string): (r: string)
    ensures r != [] && IsTrimmed(r)
    ensures !AllSpace(typed) ==> r == Trim(typed)
    ensures AllSpace(typed) ==> r == FallbackRecipient
  {
    OrElse(Trim(typed), FallbackRecipient)
  }

  /** The preview after the "generate" step: recipient and message fall back to
      fixed defaults, while a blank verse field keeps what the preview showed. */
  function Committed(draft: Card, preview: Card): (r: Card)
    ensures r.recipient != [] && r.message != []
    ensures r.verseRef == Trim(draft.verseRef) || r.verseRef == preview.verseRef
    ensures r.verseText == Trim(draft.verseText) || r.verseText == preview.verseText
  {
    Card(ShownRecipient(draft.recipient),
         OrElse(Trim(draft.message), DefaultMessage),
         OrElse(Trim(draft.verseRef), preview.verseRef),
         OrElse(Trim(draft.verseText), preview.verseText))
  }

  /** Each field of a commit is the trimmed draft when that is non-blank. */
  lemma CommitUsesDraft(draft: Card, preview: Card)
    ensures var r := Committed(draft, preview);
      && (!AllSpace(draft.recipient) ==> r.recipient == Trim(draft.recipient))
      && (!AllSpace(draft.message) ==> r.message == Trim(draft.message))
      && (!AllSpace(draft.verseRef) ==> r.verseRef == Trim(draft.verseRef))
      && (!AllSpace(draft.verseText) ==> r.verseText == Trim(draft.verseText))
  {
  }

  /** A blank draft field gives the fallback recipient, the default message, or
      the verse the preview already showed. */
  lemma CommitFallbacks(draft: Card, preview: Card)
    ensures var r := Committed(draft, preview);
      && (AllSpace(draft.recipient) ==> r.recipient == FallbackRecipient)
      && (AllSpace(draft.message) ==> r.message == DefaultMessage)
      && (AllSpace(draft.verseRef) ==> r.verseRef == preview.verseRef)
      && (AllSpace(draft.verseText) ==> r.verseText == preview.verseText)
  {
  }

  /** A commit never blanks the verse a preview shows. */
  lemma CommitNeverBlanksVerse(draft: Card, preview: Card)
    requires preview.verseRef != [] && preview.verseText != []
    ensures Committed(draft, preview).verseRef != []
    ensures Committed(draft, preview).verseText != []
  {
  }

  /** Committing twice with the same draft gives the same preview as committing once. */
  lemma CommitIdempotent(draft: Card, preview: Card)
    ensures Committed(draft, Committed(draft, preview)) == Committed(draft, preview)
  {
  }

  /** Every committed field has no whitespace at either end when the previous
      preview's verse had none. */
  lemma CommitTrimmed(draft: Card, preview: Card)
    requires IsTrimmed(preview.verseRef) && IsTrimmed(preview.verseText)
    ensures var r := Committed(draft, preview);
      IsTrimmed(r.recipient) && IsTrimmed(r.message) && IsTrimmed(r.verseRef) && IsTrimmed(r.verseText)
  {
    assert DefaultMessage[0] == 'M' && DefaultMessage[|DefaultMessage| - 1] == '.';
  }

  /** A preview committed from a draft equal to itself is unchanged, when every
      field is non-blank and trimmed. */
  lemma CommitFixedPoint(c: Card)
    requires c.recipient != [] && c.message != []
    requires IsTrimmed(c.recipient) && IsTrimmed(c.message) && IsTrimmed(c.verseRef) && IsTrimmed(c.verseText)
    ensures Committed(c, c) == c
  {
    TrimOfTrimmed(c.recipient);
    TrimOfTrimmed(c.message);
    TrimOfTrimmed(c.verseRef);
    TrimOfTrimmed(c.verseText);
  }

  /** The draft after a fetched verse is applied: both verse fields are overwritten. */
  function DraftWithVerse(draft: Card, v: ParsedVerse): (r: Card)
    ensures r.recipient == draft.recipient && r.message == draft.message
    ensures r.verseRef == v.reference && r.verseText == v.text
  {
    draft.(verseRef := v.reference, verseText := v.text)
  }

  /** The preview after a fetched verse is applied: each verse field is replaced
      only by a non-empty parsed value. */
  function PreviewWithVerse(preview: Card, v: ParsedVerse): (r: Card)
    ensures r.recipient == preview.recipient && r.message == preview.message
    ensures v.reference != [] ==> r.verseRef == v.reference
    ensures v.reference == [] ==> r.verseRef == preview.verseRef
    ensures v.text != [] ==> r.verseText == v.text
    ensures v.text == [] ==> r.verseText == preview.verseText
  {
    preview.(verseRef := OrElse(v.reference, preview.verseRef),
             verseText := OrElse(v.text, preview.verseText))
  }

  /** Generating the card right after a verse was fetched shows the verse the
      fetch already put in the preview. */
  lemma CommitAfterVerse(draft: Card, preview: Card, response: string)
    ensures var v := ParseVerse(response);
      var r := Committed(DraftWithVerse(draft, v), PreviewWithVerse(preview, v));
      r.verseRef == PreviewWithVerse(preview, v).verseRef
      && r.verseText == PreviewWithVerse(preview, v).verseText
  {
    var v := ParseVerse(response);
    TrimOfTrimmed(v.reference);
    TrimOfTrimmed(v.text);
  }

  /** The preview after a generated blessing is applied: the message is the
      generated text as is, and the recipient follows the commit rule. */
  function PreviewWithGreeting(draft: Card, preview: Card, blessing: string): (r: Card)
    ensures r.message == blessing
    ensures r.recipient == Committed(draft, preview).recipient
    ensures r.verseRef == preview.verseRef && r.verseText == preview.verseText
  {
    preview.(recipient := ShownRecipient(draft.recipient), message := blessing)
  }

  /** Generating the card right after a blessing was applied keeps the
      blessing, up to surrounding whitespace, unless it is blank. */
  lemma CommitAfterGreeting(draft: Card, preview: Card, blessing: string)
    requires !AllSpace(blessing)
    ensures var d := draft.(message := blessing);
      Committed(d, PreviewWithGreeting(d, preview, blessing)).message == Trim(blessing)
  {
  }
}
