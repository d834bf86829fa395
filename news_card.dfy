/** One story card: the body cut to a preview unless the card is expanded. */
module NewsCard {
  import opened Wrappers
  import opened Types

  /** Characters of body text shown before the card truncates. */
  const MaxLength: nat := 120

  const Ellipsis: string := "..."

  /** The body is longer than the preview. */
  predicate ShouldTruncate(body: string) {
    |body| > MaxLength
  }

  /** The text the card shows for `body`. */
  function DisplayText(body: string, isExpanded: bool): (r: string)
    ensures r == body || (!isExpanded && ShouldTruncate(body))
    ensures !isExpanded && ShouldTruncate(body) ==> r == body[..MaxLength] + Ellipsis
    ensures !isExpanded ==> |r| <= MaxLength + |Ellipsis|
    ensures |body| <= MaxLength ==> r == body
  {
    if isExpanded || !ShouldTruncate(body) then body else body[..MaxLength] + Ellipsis
  }

  /** The toggle button, if any: present exactly when the body is truncatable. */
  function ToggleLabel(body: string, isExpanded: bool): (caption: Option<string>)
    ensures caption.Some? <==> ShouldTruncate(body)
    ensures caption.Some? ==> (caption.value == "Read Less" <==> isExpanded)
    ensures caption.Some? && !isExpanded ==> caption.value == "Read More"
  {
    if !ShouldTruncate(body) then None
    else if isExpanded then Some("Read Less") else Some("Read More")
  }

  /** A collapsed preview is its own preview: truncating it again changes nothing. */
  lemma PreviewIsStable(body: string)
    ensures DisplayText(DisplayText(body, false), false) == DisplayText(body, false)
  {
  }

  /** Collapsed, the preview keeps the body's first characters up to the limit. */
  lemma PreviewKeepsPrefix(body: string)
    ensures var n := if |body| < MaxLength then |body| else MaxLength;
            |DisplayText(body, false)| >= n && DisplayText(body, false)[..n] == body[..n]
  {
  }

  class Card {
    const item: NewsItem
    var isExpanded: bool

    /** A new card starts collapsed. */
    constructor (item: NewsItem)
      ensures this.item == item && !isExpanded
    {
      this.item := item;
      isExpanded := false;
    }

    function Shown(): string
      reads this
    {
      DisplayText(item.articleBody, isExpanded)
    }

    /** `setIsExpanded(!isExpanded)`. */
    method Toggle()
      modifies this
      ensures isExpanded == !old(isExpanded)
    {
      isExpanded := !isExpanded;
    }
  }

  /** Two clicks restore the card: same expansion, same text shown. */
  method ToggleTwice(card: Card)
    modifies card
    ensures card.isExpanded == old(card.isExpanded)
    ensures card.Shown() == old(card.Shown())
  {
    card.Toggle();
    card.Toggle();
  }
}
