/**
 * Record shapes of the relational store: users, card definitions, decks,
 * deck entries and collection entries, plus the scraped tournament-meta
 * tables. Nullable columns are `Option`s; non-null columns are plain values.
 * Surrogate integer keys of card definitions are replaced by the unique
 * Scryfall id, which identifies a row just as well.
 */
module Models {
  import opened Wrappers

  type Bytes = seq<bv8>

  /** Format name to legality status, e.g. "commander" -> "legal". */
  type Legalities = map<string, string>

  /** Python truthiness of an optional string: present and non-empty. */
  predicate Truthy(s: Option<string>) { s.Some? && s.value != "" }

  /** Python truthiness of optional bytes: present and non-empty. */
  predicate HasData(b: Option<Bytes>) { b.Some? && b.value != [] }

  // ---------------------------------------------------------------- users

  datatype User = User(id: int, username: string, email: Option<string>, hashedPassword: string, isActive: bool)

  /** A user row inserted without an explicit `is_active`. */
  function NewUser(id: int, username: string, email: Option<string>, hashedPassword: string): (u: User)
    ensures u.isActive
    ensures u.username == username && u.id == id
  {
    User(id, username, email, hashedPassword, true)
  }

  /** The unique constraint on `users.username`. */
  predicate UniqueUsernames(users: seq<User>) {
    forall i, j :: 0 <= i < j < |users| ==> users[i].username != users[j].username
  }

  // ------------------------------------------------------ card definitions

  datatype Size = Small | Normal | Large

  /** One downloadable image size: its source URI and its stored payload, independently nullable. */
  datatype ImageSlot = ImageSlot(uri: Option<string>, data: Option<Bytes>)

  datatype CardDefinition = CardDefinition(
    scryfallId: string,
    name: Option<string>,
    setCode: Option<string>,
    collectorNumber: Option<string>,
    typeLine: Option<string>,
    legalities: Option<Legalities>,
    small: ImageSlot,
    normal: ImageSlot,
    large: ImageSlot,
    artCropUri: Option<string>,
    borderCropUri: Option<string>)

  function Slot(c: CardDefinition, sz: Size): ImageSlot {
    match sz
    case Small => c.small
    case Normal => c.normal
    case Large => c.large
  }

  /** Every field except the three downloadable image slots agrees. */
  predicate SameExceptImages(a: CardDefinition, b: CardDefinition) {
    a.scryfallId == b.scryfallId && a.name == b.name && a.setCode == b.setCode &&
    a.collectorNumber == b.collectorNumber && a.typeLine == b.typeLine &&
    a.legalities == b.legalities && a.artCropUri == b.artCropUri && a.borderCropUri == b.borderCropUri
  }

  function WithSlot(c: CardDefinition, sz: Size, slot: ImageSlot): (r: CardDefinition)
    ensures Slot(r, sz) == slot
    ensures forall other :: other != sz ==> Slot(r, other) == Slot(c, other)
    ensures SameExceptImages(r, c)
  {
    match sz
    case Small => c.(small := slot)
    case Normal => c.(normal := slot)
    case Large => c.(large := slot)
  }

  /** The `card_definitions` table, addressed by its unique, non-null `scryfall_id`. */
  type CardStore = map<string, CardDefinition>

  /** Each row sits under its own Scryfall id, so the id identifies exactly one row. */
  ghost predicate KeyedById(store: CardStore) {
    forall id :: id in store ==> store[id].scryfallId == id
  }

  // ----------------------------------------------------------------- decks

  datatype Deck = Deck(id: int, userId: int, name: string, description: Option<string>, format: Option<string>)

  datatype DeckEntry = DeckEntry(deckId: int, cardId: string, quantity: int, isCommander: Option<bool>, isSideboard: Option<bool>)

  /** A deck-entry row inserted with only its foreign keys: the column defaults apply. */
  function NewDeckEntry(deckId: int, cardId: string): (e: DeckEntry)
    ensures e.quantity == 1 && e.isCommander == Some(false) && e.isSideboard == Some(false)
    ensures e.deckId == deckId && e.cardId == cardId
  {
    DeckEntry(deckId, cardId, 1, Some(false), Some(false))
  }

  /**
   * Deleting a deck deletes its entries (the `delete-orphan` cascade): the
   * entries left are exactly those of other decks, in their order.
   */
  function WithoutDeck(entries: seq<DeckEntry>, deckId: int): (r: seq<DeckEntry>)
    ensures forall e :: e in r <==> e in entries && e.deckId != deckId
    ensures |r| <= |entries|
  {
    if entries == [] then []
    else
      var rest := WithoutDeck(entries[1..], deckId);
      assert forall e :: e in entries <==> e == entries[0] || e in entries[1..];
      if entries[0].deckId == deckId then rest else [entries[0]] + rest
  }

  // ---------------------------------------------------- collection entries

  datatype UserCollectionEntry = UserCollectionEntry(
    userId: int,
    cardId: string,
    quantityNormal: int,
    quantityFoil: int,
    condition: Option<string>,
    language: string,
    notes: Option<string>)

  /** A collection row inserted with only its foreign keys: the column defaults apply. */
  function NewCollectionEntry(userId: int, cardId: string): (e: UserCollectionEntry)
    ensures e.quantityNormal == 0 && e.quantityFoil == 0 && e.language == "en"
    ensures e.condition.None? && e.notes.None?
    ensures e.userId == userId && e.cardId == cardId
  {
    UserCollectionEntry(userId, cardId, 0, 0, None, "en", None)
  }

  // ------------------------------------------- scraped tournament-meta tables

  datatype Date = Date(year: int, month: int, day: int)

  datatype MetaTournament = MetaTournament(id: int, name: string, date: Option<Date>, url: string)

  datatype MetaDeck = MetaDeck(
    id: int, name: string, commander: Option<string>, tournamentId: int,
    placement: Option<string>, url: string)

  datatype MetaDeckCard = MetaDeckCard(deckId: int, cardName: string, quantity: int, isCommander: bool)
}
