/** The card builder's component state and the handlers that update it. */
module App {
  import opened Text
  import opened Optional
  import opened Verse
  import opened Cards
  import opened Sections

  /** The card images that ship with the builder. */
  const BuiltInImages: seq<string> :=
    ["/images/image-1.png", "/images/image-2.png", "/images/image-3.png", "/images/image-4.png"]

  /** The image source the URL box sets: none for a blank box, otherwise the trimmed URL. */
  function ImageFromUrl(input: string): (r: Option<string>)
    ensures r.None? <==> AllSpace(input)
    ensures r.Some? ==> r.value == Trim(input) && r.value != [] && IsTrimmed(r.value)
  {
    if Trim(input) == [] then None else Some(Trim(input))
  }

  /** A URL without surrounding whitespace is taken as it is, so applying the
      box again after a built-in image was picked keeps that image. */
  lemma ImageFromTrimmedUrl(url: string)
    requires url != [] && IsTrimmed(url)
    ensures ImageFromUrl(url) == Some(url)
  {
    TrimOfTrimmed(url);
  }

  /** Every built-in image survives a round trip through the URL box. */
  lemma BuiltInImagesReapply(i: nat)
    requires i < |BuiltInImages|
    ensures ImageFromUrl(BuiltInImages[i]) == Some(BuiltInImages[i])
  {
    var url := BuiltInImages[i];
    assert url[0] == '/' && url[|url| - 1] == 'g';
    ImageFromTrimmedUrl(url);
  }

  class CardState {
    // The draft, bound to the form's inputs.
    var recipient: string
    var message: string
    var verseRef: string
    var verseText: string
    // The preview, which the card renders.
    var previewRecipient: string
    var previewMessage: string
    var previewVerseRef: string
    var previewVerseText: string
    // The card image and the URL box that sets it.
    var imageSource: Option<string>
    var imageUrlInput: string
    // The form section in view.
    var sectionIndex: int

    /** The card always names someone, always shows a verse, and the form
        shows one of its sections. The previewed message is not included: a
        generated blessing is shown as it comes, even when empty. */
    predicate Valid()
      reads this
    {
      && previewRecipient != []
      && previewVerseRef != [] && previewVerseText != []
      && 0 <= sectionIndex < SectionCount
    }

    function Draft(): Card
      reads this
    {
      Card(recipient, message, verseRef, verseText)
    }

    function Preview(): Card
      reads this
    {
      Card(previewRecipient, previewMessage, previewVerseRef, previewVerseText)
    }

    /** The state on first render. */
    constructor ()
      ensures Draft() == Card(InitialRecipient, DefaultMessage, "", "")
      ensures Preview() == Card(InitialRecipient, DefaultMessage, InitialVerseRef, InitialVerseText)
      ensures imageSource == None && imageUrlInput == "" && sectionIndex == 0
      ensures Valid()
    {
      recipient := InitialRecipient;
      message := DefaultMessage;
      verseRef := "";
      verseText := "";
      previewRecipient := InitialRecipient;
      previewMessage := DefaultMessage;
      previewVerseRef := InitialVerseRef;
      previewVerseText := InitialVerseText;
      imageSource := None;
      imageUrlInput := "";
      sectionIndex := 0;
    }

    /** "Generate card": the draft becomes the preview under the commit rule;
        nothing but the four preview fields changes. */
    method Commit()
      requires Valid()
      modifies this`previewRecipient, this`previewMessage, this`previewVerseRef, this`previewVerseText
      ensures Valid()
      ensures Preview() == Committed(old(Draft()), old(Preview()))
      ensures previewRecipient != [] && previewMessage != []
      ensures Draft() == old(Draft())
      ensures imageSource == old(imageSource) && imageUrlInput == old(imageUrlInput)
      ensures sectionIndex == old(sectionIndex)
    {
      var shown := Committed(Draft(), Preview());
      CommitNeverBlanksVerse(Draft(), Preview());
      SetPreview(shown);
    }

    /** The four preview setters, called together. */
    method SetPreview(shown: Card)
      modifies this`previewRecipient, this`previewMessage, this`previewVerseRef, this`previewVerseText
      ensures Preview() == shown
    {
      previewRecipient := shown.recipient;
      previewMessage := shown.message;
      previewVerseRef := shown.verseRef;
      previewVerseText := shown.verseText;
    }

    /** A generated blessing arrives: it replaces the draft and previewed
        message as it is, and the preview names the draft recipient. */
    method ApplyGreeting(blessing: string)
      requires Valid()
      modifies this`message, this`previewMessage, this`previewRecipient
      ensures Valid()
      ensures Draft() == old(Draft()).(message := blessing)
      ensures Preview() == PreviewWithGreeting(old(Draft()), old(Preview()), blessing)
    {
      message := blessing;
      previewMessage := blessing;
      previewRecipient := ShownRecipient(recipient);
    }

    /** A generated verse arrives and is parsed; the parsed reference and
        text are then stored. */
    method ApplyVerse(response: string)
      requires Valid()
      modifies this`verseRef, this`verseText, this`previewVerseRef, this`previewVerseText
      ensures Valid()
      ensures Draft() == DraftWithVerse(old(Draft()), ParseVerse(response))
      ensures Preview() == PreviewWithVerse(old(Preview()), ParseVerse(response))
    {
      var parsed := ParseVerse(response);
      StoreVerse(parsed);
    }

    /** The verse setters: the parsed reference and text overwrite the draft,
        and replace the preview only where they are non-empty. */
    method StoreVerse(parsed: ParsedVerse)
      requires Valid()
      modifies this`verseRef, this`verseText, this`previewVerseRef, this`previewVerseText
      ensures Valid()
      ensures Draft() == DraftWithVerse(old(Draft()), parsed)
      ensures Preview() == PreviewWithVerse(old(Preview()), parsed)
    {
      verseRef := parsed.reference;
      verseText := parsed.text;
      previewVerseRef := OrElse(parsed.reference, previewVerseRef);
      previewVerseText := OrElse(parsed.text, previewVerseText);
    }

    /** "Apply" on the image URL box. */
    method ApplyImageUrl()
      requires Valid()
      modifies this`imageSource
      ensures Valid()
      ensures imageSource == ImageFromUrl(imageUrlInput)
      ensures old(imageUrlInput) == imageUrlInput
    {
      if Trim(imageUrlInput) == [] {
        imageSource := None;
        return;
      }
      imageSource := Some(Trim(imageUrlInput));
    }

    /** Picking a built-in image sets both the image and the URL box. */
    method SelectBuiltInImage(url: string)
      requires Valid()
      modifies this`imageSource, this`imageUrlInput
      ensures Valid()
      ensures imageSource == Some(url) && imageUrlInput == url
    {
      imageSource := Some(url);
      imageUrlInput := url;
    }

    /** Scroll to a section: the index is clamped to the existing sections. */
    method ScrollTo(index: int)
      requires Valid()
      modifies this`sectionIndex
      ensures Valid()
      ensures sectionIndex == Clamp(index)
    {
      sectionIndex := Clamp(index);
    }

    /** "Previous section": stays on the first, otherwise moves back one. */
    method Prev()
      requires Valid()
      modifies this`sectionIndex
      ensures Valid()
      ensures old(sectionIndex) == 0 ==> sectionIndex == 0
      ensures old(sectionIndex) > 0 ==> sectionIndex == old(sectionIndex) - 1
    {
      PrevStep(sectionIndex);
      ScrollTo(sectionIndex - 1);
    }

    /** "Next section": stays on the last, otherwise moves forward one. */
    method Next()
      requires Valid()
      modifies this`sectionIndex
      ensures Valid()
      ensures old(sectionIndex) == SectionCount - 1 ==> sectionIndex == old(sectionIndex)
      ensures old(sectionIndex) < SectionCount - 1 ==> sectionIndex == old(sectionIndex) + 1
    {
      NextStep(sectionIndex);
      ScrollTo(sectionIndex + 1);
    }
  }
}
