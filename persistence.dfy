/** What the component reads back from the `deckNotes_cards` storage slot
    and from an imported file. JSON parsing itself is not modelled: its
    outcome is an input. */
module Persistence {
  import opened Cards

  /** A parsed JSON value, as far as the component distinguishes it: an
      array of card records, or any other value. */
  datatype Json = JsonArray(items: seq<Card>) | JsonOther

  /** The outcome of `JSON.parse`: it throws, or yields a value. */
  datatype Parse = ParseFailed | Parsed(value: Json)

  /** The list the mount effect installs. `stored` is `None` when the slot
      holds nothing truthy (missing key or empty text); otherwise it is what
      parsing the stored text gave. Only a non-empty array is used; every
      other outcome falls back to the four default cards, so the list is
      never empty after loading. */
  function LoadedCards(stored: Option<Parse>, stamps: seq<string>): (r: seq<Card>)
    requires |stamps| == 4
    ensures |r| > 0
    ensures r == DefaultCards(stamps) || stored == Some(Parsed(JsonArray(r)))
  {
    match stored
    case Some(Parsed(JsonArray(items))) =>
      if |items| > 0 then items else DefaultCards(stamps)
    case _ => DefaultCards(stamps)
  }

  /** The stored list is used exactly when it is present, parses to an
      array, and that array is non-empty. */
  lemma LoadUsesStoredListIff(stored: Option<Parse>, stamps: seq<string>, items: seq<Card>)
    requires |stamps| == 4
    requires stored == Some(Parsed(JsonArray(items)))
    ensures LoadedCards(stored, stamps) == items <==> |items| > 0
  {
  }

  /** Anything but a non-empty stored array gives the four default cards,
      with ids 1 to 4. */
  lemma LoadFallsBackToDefaults(stored: Option<Parse>, stamps: seq<string>)
    requires |stamps| == 4
    requires !(stored.Some? && stored.value.Parsed? && stored.value.value.JsonArray? &&
               |stored.value.value.items| > 0)
    ensures LoadedCards(stored, stamps) == DefaultCards(stamps)
    ensures var r := LoadedCards(stored, stamps);
      |r| == 4 && DistinctIds(r) && forall i :: 0 <= i < 4 ==> r[i].id == i + 1
  {
  }

  /** Saving a non-empty list and loading it back gives the same list; but
      a deck whose every card was deleted comes back as the four defaults.
      The parse outcome is written as the saved list itself: this assumes
      that parsing the text `JSON.stringify` wrote gives that list back,
      which is not modelled. */
  lemma SaveThenLoad(saved: seq<Card>, stamps: seq<string>)
    requires |stamps| == 4
    ensures |saved| > 0 ==> LoadedCards(Some(Parsed(JsonArray(saved))), stamps) == saved
    ensures saved == [] ==> LoadedCards(Some(Parsed(JsonArray(saved))), stamps) == DefaultCards(stamps)
  {
  }
}
