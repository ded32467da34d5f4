/** The form's sections and the clamped index that the previous/next buttons move. */
module Sections {

  /** The form's sections in display order: greeting and verse, card
      imagery, and generate/share/download. */
  const SectionIds: seq<string> := ["greeting", "image", "actions"]

  const SectionCount: nat := |SectionIds|

  function Max(a: int, b: int): int { if a < b then b else a }

  function Min(a: int, b: int): int { if a < b then a else b }

  /** `Math.min(Math.max(index, 0), formSections.length - 1)`: the section
      index a scroll request lands on. */
  function Clamp(index: int): (c: int)
    ensures 0 <= c < SectionCount
    ensures 0 <= index < SectionCount ==> c == index
    ensures index < 0 ==> c == 0
    ensures index >= SectionCount ==> c == SectionCount - 1
  {
    Min(Max(index, 0), SectionCount - 1)
  }

  function Distance(a: int, b: int): nat { if a < b then b - a else a - b }

  /** The clamped index is the valid index nearest to the request. */
  lemma ClampNearest(index: int, k: int)
    requires 0 <= k < SectionCount
    ensures Distance(Clamp(index), index) <= Distance(k, index)
  {
  }

  /** Clamping keeps the order of requests. */
  lemma ClampMonotone(i: int, j: int)
    requires i <= j
    ensures Clamp(i) <= Clamp(j)
  {
  }

  /** A valid index is its own clamp, so clamping twice is clamping once. */
  lemma ClampIdempotent(index: int)
    ensures Clamp(Clamp(index)) == Clamp(index)
  {
  }

  /** "Previous" from a valid section: stays on the first, otherwise moves back one. */
  lemma PrevStep(i: int)
    requires 0 <= i < SectionCount
    ensures i == 0 ==> Clamp(i - 1) == 0
    ensures i > 0 ==> Clamp(i - 1) == i - 1
  {
  }

  /** "Next" from a valid section: stays on the last, otherwise moves forward one. */
  lemma NextStep(i: int)
    requires 0 <= i < SectionCount
    ensures i == SectionCount - 1 ==> Clamp(i + 1) == i
    ensures i < SectionCount - 1 ==> Clamp(i + 1) == i + 1
  {
  }

  /** "Next" then "Previous" returns to the start unless the start was the last section. */
  lemma NextThenPrev(i: int)
    requires 0 <= i < SectionCount - 1
    ensures Clamp(Clamp(i + 1) - 1) == i
  {
  }
}
