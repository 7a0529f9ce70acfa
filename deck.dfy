/** The `DeckNotes` component's state and its event handlers. Every piece of
    React state becomes a field; every handler becomes a method that changes
    exactly the fields its setters touch. */
module Deck {
  import opened Cards
  import opened Collection
  import opened Reorder
  import opened Persistence

  /** The modal a backdrop click names. */
  datatype ModalKind = CreateModal | CardModal | AboutModal | OtherModal

  /** The form field an input's `onChange` (or a colour button) sets. */
  datatype FormField = TitleField | SummaryField | DescriptionField | ColorField

  /** What the import callback reports to the user. */
  datatype ImportReport = Imported(added: nat) | InvalidFormat | ImportError

  /** The value of one form field. */
  function FieldOf(form: Form, field: FormField): string {
    match field
    case TitleField => form.title
    case SummaryField => form.summary
    case DescriptionField => form.description
    case ColorField => form.color
  }

  /** `form` with one field replaced, as `setFormData({...formData, f: v})`:
      that field now reads `value`, every other field reads as before. */
  function WithField(form: Form, field: FormField, value: string): (r: Form)
    ensures FieldOf(r, field) == value
    ensures forall g :: g != field ==> FieldOf(r, g) == FieldOf(form, g)
  {
    match field
    case TitleField => form.(title := value)
    case SummaryField => form.(summary := value)
    case DescriptionField => form.(description := value)
    case ColorField => form.(color := value)
  }

  class DeckNotes {
    var cards: seq<Card>
    var showCreateModal: bool
    var showCardModal: bool
    var showAboutModal: bool
    var selectedCard: Option<Card>
    var editingCard: Option<Card>
    var deleteConfirmId: Option<int>
    var draggedCard: Option<Card>
    var dragOverCard: Option<Card>
    var formData: Form
    /** The list last written to the `deckNotes_cards` storage slot. */
    ghost var saved: seq<Card>

    /** Write-through persistence: the slot holds the whole current list. */
    ghost predicate Valid()
      reads this
    {
      saved == cards
    }

    /** Mounting: the initial state, then the load effect (which installs the
        stored list or the defaults) and the save effect. `stored` is what
        reading and parsing the slot gave; `stamps` are the clock readings
        `getDefaultCards` takes. */
    constructor (stored: Option<Parse>, stamps: seq<string>)
      requires |stamps| == 4
      ensures Valid()
      ensures cards == LoadedCards(stored, stamps)
      ensures !showCreateModal && !showCardModal && !showAboutModal
      ensures selectedCard == None && editingCard == None && deleteConfirmId == None
      ensures draggedCard == None && dragOverCard == None
      ensures formData == EmptyForm()
    {
      cards := LoadedCards(stored, stamps);
      showCreateModal, showCardModal, showAboutModal := false, false, false;
      selectedCard, editingCard, deleteConfirmId := None, None, None;
      draggedCard, dragOverCard := None, None;
      formData := EmptyForm();
      saved := cards;
    }

    /** The save effect, run whenever `cards` changes. */
    method SaveCards()
      modifies this`saved
      ensures Valid()
    {
      saved := cards;
    }

    /** `resetForm`. */
    method ResetForm()
      modifies this`formData
      ensures formData == EmptyForm()
    {
      formData := EmptyForm();
    }

    /** An input's `onChange`, or a colour button: one form field replaced. */
    method ChangeFormField(field: FormField, value: string)
      modifies this`formData
      ensures formData == WithField(old(formData), field, value)
    {
      formData := WithField(formData, field, value);
    }

    /** `handleCreateCard`: an empty draft in the form modal, not editing. */
    method HandleCreateCard()
      modifies this`editingCard, this`formData, this`showCreateModal
      ensures editingCard == None && formData == EmptyForm() && showCreateModal
    {
      editingCard := None;
      ResetForm();
      showCreateModal := true;
    }

    /** `handleEditCard`: the card's four editable fields copied into the
        form, the detail modal closed, any pending delete cleared, the form
        modal open. */
    method HandleEditCard(card: Card)
      modifies this`editingCard, this`formData, this`showCardModal,
        this`deleteConfirmId, this`showCreateModal
      ensures editingCard == Some(card)
      ensures formData.title == card.title && formData.summary == card.summary
      ensures formData.description == card.description && formData.color == card.color
      ensures !showCardModal && deleteConfirmId == None && showCreateModal
    {
      editingCard := Some(card);
      formData := FormOf(card);
      showCardModal := false;
      deleteConfirmId := None;
      showCreateModal := true;
    }

    /** `handleSubmitCard`. A draft with an empty trimmed text field is
        rejected (the user gets an alert) and nothing changes. Otherwise,
        when not editing, one card is appended with id `freshId` (the
        `Date.now()` reading) and timestamp `now`; when editing, every card
        with the edited id is replaced by the submitted one, which keeps that
        id and the original `createdAt`. Either way the form closes and
        resets. */
    method HandleSubmitCard(freshId: int, now: string) returns (accepted: bool)
      requires Valid()
      modifies this`cards, this`saved, this`showCreateModal, this`formData, this`editingCard
      ensures Valid()
      ensures accepted == FormIsComplete(old(formData))
      ensures !accepted ==> unchanged(this)
      ensures accepted ==> !showCreateModal && formData == EmptyForm() && editingCard == None
      ensures accepted && old(editingCard).None? ==>
        var f := old(formData);
        cards == old(cards) +
          [CardFromForm(freshId, f, now)]
      ensures accepted && old(editingCard).Some? ==>
        var e := old(editingCard).value;
        var f := old(formData);
        |cards| == |old(cards)| &&
        forall i :: 0 <= i < |cards| ==>
          cards[i] == if old(cards)[i].id == e.id
                      then CardFromForm(e.id, f, e.createdAt)
                      else old(cards)[i]
    {
      if !FormIsComplete(formData) {
        accepted := false;
        return;
      }
      accepted := true;
      var f := formData;
      if editingCard.Some? {
        var e := editingCard.value;
        var cardData := CardFromForm(e.id, f, e.createdAt);
        cards := ReplaceById(cards, e.id, cardData);
      } else {
        var cardData := CardFromForm(freshId, f, now);
        cards := cards + [cardData];
      }
      showCreateModal := false;
      ResetForm();
      editingCard := None;
      SaveCards();
    }

    /** `handleCardClick`, without the modal position: while a card is being
        dragged a click does nothing; otherwise the clicked card is shown in
        the detail modal. */
    method HandleCardClick(card: Card)
      modifies this`selectedCard, this`showCardModal
      ensures draggedCard.Some? ==> unchanged(this)
      ensures draggedCard.None? ==> selectedCard == Some(card) && showCardModal
    {
      if draggedCard.Some? {
        return;
      }
      selectedCard := Some(card);
      showCardModal := true;
    }

    /** `handleDeleteCard`, a two-phase delete. A call with the pending id
        removes every card with that id, clears the pending id and closes
        the detail modal; any other call only makes `cardId` the pending id. */
    method HandleDeleteCard(cardId: int)
      requires Valid()
      modifies this`cards, this`saved, this`deleteConfirmId, this`showCardModal
      ensures Valid()
      ensures old(deleteConfirmId) == Some(cardId) ==>
        cards == WithoutIds(old(cards), {cardId}) && deleteConfirmId == None && !showCardModal
      ensures old(deleteConfirmId) != Some(cardId) ==>
        cards == old(cards) && deleteConfirmId == Some(cardId) && showCardModal == old(showCardModal)
      ensures |cards| < |old(cards)| ==> old(deleteConfirmId) == Some(cardId)
    {
      if deleteConfirmId == Some(cardId) {
        cards := WithoutIds(cards, {cardId});
        deleteConfirmId := None;
        showCardModal := false;
        SaveCards();
      } else {
        deleteConfirmId := Some(cardId);
      }
    }

    /** `handleModalBackdropClick`. `onBackdrop` says whether the click hit
        the backdrop itself (`e.target === e.currentTarget`) rather than the
        modal's content; only then does anything close. */
    method HandleModalBackdropClick(onBackdrop: bool, modal: ModalKind)
      modifies this`showCreateModal, this`formData, this`editingCard,
        this`showCardModal, this`deleteConfirmId, this`showAboutModal
      ensures !onBackdrop || modal == OtherModal ==> unchanged(this)
      ensures onBackdrop && modal == CreateModal ==>
        !showCreateModal && formData == EmptyForm() && editingCard == None &&
        unchanged(this`showCardModal, this`deleteConfirmId, this`showAboutModal)
      ensures onBackdrop && modal == CardModal ==>
        !showCardModal && deleteConfirmId == None &&
        unchanged(this`showCreateModal, this`formData, this`editingCard, this`showAboutModal)
      ensures onBackdrop && modal == AboutModal ==>
        !showAboutModal &&
        unchanged(this`showCreateModal, this`formData, this`editingCard,
          this`showCardModal, this`deleteConfirmId)
    {
      if onBackdrop {
        match modal
        case CreateModal =>
          showCreateModal := false;
          ResetForm();
          editingCard := None;
        case CardModal =>
          showCardModal := false;
          deleteConfirmId := None;
        case AboutModal =>
          showAboutModal := false;
        case OtherModal =>
      }
    }

    /** `handleDragStart`, without the `dataTransfer` set-up. */
    method HandleDragStart(card: Card)
      modifies this`draggedCard
      ensures draggedCard == Some(card)
    {
      draggedCard := Some(card);
    }

    /** `handleDragEnter`. */
    method HandleDragEnter(card: Card)
      modifies this`dragOverCard
      ensures dragOverCard == Some(card)
    {
      dragOverCard := Some(card);
    }

    /** `handleDragLeave`. */
    method HandleDragLeave()
      modifies this`dragOverCard
      ensures dragOverCard == None
    {
      dragOverCard := None;
    }

    /** `handleDrop` onto `target`, one of the rendered cards (so the list
        is not empty). Both drag fields are cleared on every path. With no
        dragged card, or a drop onto the dragged card itself, the list is
        left alone; otherwise a copy of the list is spliced in place and
        stored. */
    method HandleDrop(target: Card)
      requires Valid()
      requires |cards| > 0
      modifies this`cards, this`saved, this`draggedCard, this`dragOverCard
      ensures Valid()
      ensures cards == DropResult(old(cards), old(draggedCard), target)
      ensures draggedCard == None && dragOverCard == None
    {
      if draggedCard.None? || draggedCard.value.id == target.id {
        draggedCard := None;
        dragOverCard := None;
        return;
      }
      var source := cards;
      var currentCards := new Card[|source|](i requires 0 <= i < |source| => source[i]);
      assert currentCards[..] == source;
      var draggedIndex := FindIndex(source, draggedCard.value.id);
      var targetIndex := FindIndex(source, target.id);
      MoveInPlace(currentCards, SpliceStart(draggedIndex, |source|),
        SpliceStart(targetIndex, |source| - 1));
      cards := currentCards[..];
      draggedCard := None;
      dragOverCard := None;
      SaveCards();
    }

    /** `handleDragEnd`: both drag fields cleared. */
    method HandleDragEnd()
      modifies this`draggedCard, this`dragOverCard
      ensures draggedCard == None && dragOverCard == None
    {
      draggedCard := None;
      dragOverCard := None;
    }

    /** The `onload` body of `importCards`. `input` is what `JSON.parse` did
        with the file's text. An array is merged by id, and the number of
        records added is reported; anything else changes nothing. */
    method ImportCards(input: Parse) returns (report: ImportReport)
      requires Valid()
      modifies this`cards, this`saved
      ensures Valid()
      ensures input.ParseFailed? ==> report == ImportError && cards == old(cards)
      ensures input == Parsed(JsonOther) ==> report == InvalidFormat && cards == old(cards)
      ensures input.Parsed? && input.value.JsonArray? ==>
        cards == MergeById(old(cards), input.value.items) &&
        report == Imported(|cards| - |old(cards)|)
    {
      match input
      case ParseFailed =>
        report := ImportError;
      case Parsed(JsonOther) =>
        report := InvalidFormat;
      case Parsed(JsonArray(importedCards)) =>
        var newCards := WithoutIds(importedCards, IdSet(cards));
        cards := cards + newCards;
        SaveCards();
        report := Imported(|newCards|);
    }

    /** `generateSampleCards`: the twenty sample cards merged by id, the
        about modal closed, the number added reported. `clock` and `stamps`
        are the clock readings each sample card takes. */
    method GenerateSampleCards(clock: seq<int>, stamps: seq<string>) returns (added: nat)
      requires Valid()
      requires |clock| == 20 && |stamps| == 20
      modifies this`cards, this`saved, this`showAboutModal
      ensures Valid()
      ensures cards == MergeById(old(cards), SampleCards(clock, stamps))
      ensures added == |cards| - |old(cards)| && added <= 20
      ensures !showAboutModal
    {
      var newCards := WithoutIds(SampleCards(clock, stamps), IdSet(cards));
      cards := cards + newCards;
      showAboutModal := false;
      added := |newCards|;
      SaveCards();
    }
  }

  /** Two delete calls with the same id, the first not confirming an earlier
      one: the first only arms, the second removes every card with that id;
      with distinct ids and the id present, the list shrinks by exactly one. */
  method DeleteTwice(d: DeckNotes, id: int)
    requires d.Valid() && d.deleteConfirmId != Some(id)
    modifies d
    ensures d.Valid()
    ensures d.cards == WithoutIds(old(d.cards), {id}) && d.deleteConfirmId == None
    ensures DistinctIds(old(d.cards)) && id in IdSet(old(d.cards)) ==>
      |d.cards| == |old(d.cards)| - 1
  {
    d.HandleDeleteCard(id);
    assert d.cards == old(d.cards) && d.deleteConfirmId == Some(id);
    d.HandleDeleteCard(id);
    if DistinctIds(old(d.cards)) && id in IdSet(old(d.cards)) {
      RemoveUniqueShrinksByOne(old(d.cards), id);
    }
  }

  /** Opening a card for editing and submitting the form untouched leaves the
      list as it was, as long as the card's text is trimmed (every card made
      through the form is) and the list holds only that card under its id. */
  method EditWithoutChanges(d: DeckNotes, card: Card)
    requires d.Valid() && Trimmed(card) && FormIsComplete(FormOf(card))
    requires forall i :: 0 <= i < |d.cards| && d.cards[i].id == card.id ==> d.cards[i] == card
    modifies d
    ensures d.Valid() && d.cards == old(d.cards)
  {
    d.HandleEditCard(card);
    assert d.formData == FormOf(card);
    var accepted := d.HandleSubmitCard(0, "");
    assert accepted;
    assert CardFromForm(card.id, FormOf(card), card.createdAt) == card;
  }

  /** First run with empty storage, then creating the card "Fireball": the
      four defaults come first, unchanged, and the new card is fifth, with
      the fresh id and no surrounding whitespace left in its text. */
  method FirstRunCreate(stamps: seq<string>, freshId: int, now: string) returns (d: DeckNotes)
    requires |stamps| == 4
    ensures d.Valid() && |d.cards| == 5
    ensures d.cards[..4] == DefaultCards(stamps)
    ensures d.cards[4] == Card(freshId, "Fireball", "8d6 fire", "Dexterity save", "red", now)
  {
    d := new DeckNotes(None, stamps);
    d.HandleCreateCard();
    d.ChangeFormField(TitleField, " Fireball ");
    d.ChangeFormField(SummaryField, "8d6 fire");
    d.ChangeFormField(DescriptionField, "Dexterity save\n");
    d.ChangeFormField(ColorField, "red");
    assert Trim(" Fireball ") == "Fireball";
    assert Trim("8d6 fire") == "8d6 fire";
    assert Trim("Dexterity save\n") == "Dexterity save";
    var accepted := d.HandleSubmitCard(freshId, now);
    assert accepted;
  }
}
