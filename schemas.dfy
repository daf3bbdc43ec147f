/**
 * Request shapes validated before any catalog or bookkeeping operation runs:
 * which fields are required, their defaults and their lower bounds. A field
 * that a request may omit is a `Setting`, so that "left unset" (dropped by
 * `model_dump(exclude_unset=True)`) stays distinct from "explicitly null".
 */
module Schemas {
  import opened Wrappers
  import opened Models

  datatype Setting<T> = Unset | Given(value: T) {
    function Or(default: T): T {
      match this
      case Given(v) => v
      case Unset => default
    }
  }

  /** `ge=0` on an optional field: only a present value is bounded. */
  predicate NonNegativeIfGiven(s: Setting<Option<int>>) {
    s.Given? && s.value.Some? ==> s.value.value >= 0
  }

  // ------------------------------------------------------ card definitions

  /** The all-optional base shape of a card definition request. */
  datatype CardDefinitionBase = CardDefinitionBase(
    scryfallId: Option<string>, name: Option<string>, setCode: Option<string>,
    collectorNumber: Option<string>, legalities: Option<Legalities>, typeLine: Option<string>)

  /** The creation shape: Scryfall id and name are mandatory strings. */
  datatype CardDefinitionCreate = CardDefinitionCreate(
    scryfallId: string, name: string, setCode: Option<string>,
    collectorNumber: Option<string>, legalities: Option<Legalities>, typeLine: Option<string>)

  /** Validation of a creation request: rejected exactly when the id or the name is missing. */
  function ToCardDefinitionCreate(b: CardDefinitionBase): (r: Option<CardDefinitionCreate>)
    ensures r.Some? <==> b.scryfallId.Some? && b.name.Some?
    ensures r.Some? ==> r.value.scryfallId == b.scryfallId.value && r.value.name == b.name.value
    ensures r.Some? ==> r.value.setCode == b.setCode && r.value.collectorNumber == b.collectorNumber &&
                        r.value.legalities == b.legalities && r.value.typeLine == b.typeLine
  {
    if b.scryfallId.None? || b.name.None? then None
    else Some(CardDefinitionCreate(b.scryfallId.value, b.name.value, b.setCode, b.collectorNumber, b.legalities, b.typeLine))
  }

  // ---------------------------------------------------- collection entries

  datatype UserCollectionEntryCreate = UserCollectionEntryCreate(
    cardScryfallId: string,
    quantityNormal: Setting<int>,
    quantityFoil: Setting<int>,
    condition: Setting<Option<string>>,
    language: Setting<Option<string>>,
    notes: Setting<Option<string>>)

  /** `ge=0` on both quantities. */
  predicate ValidCollectionCreate(c: UserCollectionEntryCreate) {
    (c.quantityNormal.Given? ==> c.quantityNormal.value >= 0) &&
    (c.quantityFoil.Given? ==> c.quantityFoil.value >= 0)
  }

  /** The full field set of a creation request, defaults filled in (`model_dump()`). */
  datatype CollectionFields = CollectionFields(
    quantityNormal: int, quantityFoil: int, condition: Option<string>,
    language: Option<string>, notes: Option<string>)

  function CollectionCreateFields(c: UserCollectionEntryCreate): (f: CollectionFields)
    ensures c.quantityNormal.Unset? ==> f.quantityNormal == 0
    ensures c.quantityFoil.Unset? ==> f.quantityFoil == 0
    ensures c.language.Unset? ==> f.language == Some("en")
    ensures c.condition.Unset? ==> f.condition.None?
    ensures c.notes.Unset? ==> f.notes.None?
    ensures ValidCollectionCreate(c) ==> f.quantityNormal >= 0 && f.quantityFoil >= 0
    ensures c.quantityNormal.Given? ==> f.quantityNormal == c.quantityNormal.value
    ensures c.quantityFoil.Given? ==> f.quantityFoil == c.quantityFoil.value
    ensures c.language.Given? ==> f.language == c.language.value
    ensures c.condition.Given? ==> f.condition == c.condition.value
    ensures c.notes.Given? ==> f.notes == c.notes.value
  {
    CollectionFields(c.quantityNormal.Or(0), c.quantityFoil.Or(0), c.condition.Or(None),
                     c.language.Or(Some("en")), c.notes.Or(None))
  }

  /** Every field optional; a present quantity must be at least 0. */
  datatype UserCollectionEntryUpdate = UserCollectionEntryUpdate(
    quantityNormal: Setting<Option<int>>,
    quantityFoil: Setting<Option<int>>,
    condition: Setting<Option<string>>,
    language: Setting<Option<string>>,
    notes: Setting<Option<string>>)

  predicate ValidCollectionUpdate(u: UserCollectionEntryUpdate) {
    NonNegativeIfGiven(u.quantityNormal) && NonNegativeIfGiven(u.quantityFoil)
  }

  predicate IsEmptyCollectionUpdate(u: UserCollectionEntryUpdate) {
    u.quantityNormal.Unset? && u.quantityFoil.Unset? && u.condition.Unset? && u.language.Unset? && u.notes.Unset?
  }

  // --------------------------------------------------------- deck entries

  datatype DeckEntryCreate = DeckEntryCreate(cardScryfallId: string, quantity: int, isCommander: bool, isSideboard: bool)

  /** `ge=1` on the quantity. */
  predicate ValidDeckEntryCreate(c: DeckEntryCreate) { c.quantity >= 1 }

  /** A request that names only the card: quantity 1, neither commander nor sideboard. */
  function DefaultDeckEntryCreate(cardScryfallId: string): (c: DeckEntryCreate)
    ensures ValidDeckEntryCreate(c)
    ensures c.quantity == 1 && !c.isCommander && !c.isSideboard
    ensures c.cardScryfallId == cardScryfallId
  {
    DeckEntryCreate(cardScryfallId, 1, false, false)
  }

  /** Every field optional; a present quantity may be 0. */
  datatype DeckEntryUpdate = DeckEntryUpdate(
    quantity: Setting<Option<int>>, isCommander: Setting<Option<bool>>, isSideboard: Setting<Option<bool>>)

  predicate ValidDeckEntryUpdate(u: DeckEntryUpdate) { NonNegativeIfGiven(u.quantity) }

  // ----------------------------------------------------------------- decks

  datatype DeckCreate = DeckCreate(name: string, description: Option<string>, format: Option<string>)

  /** Validation of a deck creation request: the name is required, the rest default to null. */
  function ToDeckCreate(name: Option<string>, description: Setting<Option<string>>, format: Setting<Option<string>>): (r: Option<DeckCreate>)
    ensures r.Some? <==> name.Some?
    ensures r.Some? ==> r.value.name == name.value
    ensures r.Some? && description.Unset? ==> r.value.description.None?
    ensures r.Some? && format.Unset? ==> r.value.format.None?
    ensures r.Some? && description.Given? ==> r.value.description == description.value
    ensures r.Some? && format.Given? ==> r.value.format == format.value
  {
    if name.None? then None else Some(DeckCreate(name.value, description.Or(None), format.Or(None)))
  }

  /** Every field optional. */
  datatype DeckUpdate = DeckUpdate(name: Setting<Option<string>>, description: Setting<Option<string>>, format: Setting<Option<string>>)

  predicate IsEmptyDeckUpdate(u: DeckUpdate) { u.name.Unset? && u.description.Unset? && u.format.Unset? }
}
