/**
 * The catalog and bookkeeping operations of the API: the read-through fetch
 * of a card definition missing from the catalog, the catalog query, and the
 * merge-or-insert and partial-update operations on collection entries, decks
 * and deck entries.
 *
 * Each request runs in one transaction that is committed when the request
 * succeeds and rolled back when it raises, so an operation that fails leaves
 * every table as it was; the methods below restore the snapshot they took on
 * each error path.
 */
module Crud {
  import opened Wrappers
  import opened Text
  import opened Models
  import opened Schemas
  import opened Scryfall

  /** What the upstream catalog answers for a card id. */
  datatype Upstream = Payload(raw: RawCard) | HttpStatusError | RequestError | UnexpectedError

  /** Why a request fails. */
  datatype CrudError =
    | CardUnavailable      // not in the catalog and not fetchable (`ValueError`)
    | LegalityUnavailable  // the deck has a format but the card has no legalities (`ValueError`)
    | NotLegal             // the card is not "legal" in the deck's format (`ValueError`)
    | NotNullViolation     // a NOT NULL column was set to null; the flush fails
    | NegativeWindow       // a negative OFFSET or LIMIT; PostgreSQL rejects the query

  // ---------------------------------------------------- read-through fetch

  /** `download_image_data_internal`: no URI gives nothing; a failed download gives nothing. */
  function Download(uri: Option<string>, fetch: Fetcher): (r: Option<Bytes>)
    ensures r.Some? <==> Truthy(uri) && fetch(uri.value).Fetched?
    ensures r.Some? ==> r.value == fetch(uri.value).content
  {
    if !Truthy(uri) then None
    else match fetch(uri.value)
      case Fetched(content) => Some(content)
      case FetchFailed => None
  }

  /**
   * The row the read-through fetch builds from an upstream record: nothing
   * without a non-empty id and name; otherwise the record's fields, all five
   * URIs, and for each downloadable size the downloaded payload, if any. A
   * failed download keeps the URI and leaves the payload null.
   */
  function ReadThroughRow(raw: RawCard, fetch: Fetcher): (r: Option<CardDefinition>)
    ensures r.Some? <==> Truthy(raw.id) && Truthy(raw.name)
    ensures r.Some? ==> r.value.scryfallId == raw.id.value && r.value.name == raw.name &&
                        r.value.setCode == raw.setCode && r.value.collectorNumber == raw.collectorNumber &&
                        r.value.legalities == raw.legalities && r.value.typeLine == raw.typeLine
    ensures r.Some? ==> r.value.artCropUri == raw.imageUris.artCrop && r.value.borderCropUri == raw.imageUris.borderCrop
    ensures r.Some? ==> forall sz :: Slot(r.value, sz).uri == UriFor(raw.imageUris, sz)
    ensures r.Some? ==> forall sz :: (Slot(r.value, sz).data.Some? <==>
              Truthy(UriFor(raw.imageUris, sz)) && fetch(UriFor(raw.imageUris, sz).value).Fetched?)
  {
    if !Truthy(raw.id) || !Truthy(raw.name) then None
    else
      var u := raw.imageUris;
      Some(CardDefinition(raw.id.value, raw.name, raw.setCode, raw.collectorNumber, raw.typeLine, raw.legalities,
                          ImageSlot(u.small, Download(u.small, fetch)),
                          ImageSlot(u.normal, Download(u.normal, fetch)),
                          ImageSlot(u.large, Download(u.large, fetch)),
                          u.artCrop, u.borderCrop))
  }

  /**
   * On the read-through path a stored payload always comes with its URI,
   * and the payload is what that URI served; the bulk path does not keep
   * this (see `PopulateCards.RefreshCanOrphanPayload`).
   */
  lemma ReadThroughPayloadHasUri(raw: RawCard, fetch: Fetcher, sz: Size)
    requires ReadThroughRow(raw, fetch).Some?
    ensures var slot := Slot(ReadThroughRow(raw, fetch).value, sz);
            slot.data.Some? ==> Truthy(slot.uri) && fetch(slot.uri.value) == Fetched(slot.data.value)
  {
    var row := ReadThroughRow(raw, fetch).value;
    var u := raw.imageUris;
    assert Slot(row, sz) == ImageSlot(UriFor(u, sz), Download(UriFor(u, sz), fetch));
  }

  /** The key the fetch stores under, when it stores anything; the upstream id, not the requested one. */
  function FetchedKey(cards: CardStore, up: Upstream, fetch: Fetcher): (r: Option<string>)
    ensures r.Some? <==> up.Payload? && ReadThroughRow(up.raw, fetch).Some? && up.raw.id.value !in cards
    ensures r.Some? ==> r.value == up.raw.id.value && r.value !in cards
  {
    if up.Payload? && ReadThroughRow(up.raw, fetch).Some? && up.raw.id.value !in cards then Some(up.raw.id.value)
    else None
  }

  /** Local lookup first, then the read-through fetch. */
  function ResolvedKey(cards: CardStore, scryfallId: string, upstream: string -> Upstream, fetch: Fetcher): (r: Option<string>)
    ensures scryfallId in cards ==> r == Some(scryfallId)
    ensures r.Some? && r.value !in cards ==> scryfallId !in cards && r == FetchedKey(cards, upstream(scryfallId), fetch)
    ensures r.None? <==> scryfallId !in cards && FetchedKey(cards, upstream(scryfallId), fetch).None?
  {
    if scryfallId in cards then Some(scryfallId) else FetchedKey(cards, upstream(scryfallId), fetch)
  }

  // --------------------------------------------------------- catalog query

  /** NULLS LAST ascending order on a nullable text column. */
  predicate OptLeq(a: Option<string>, b: Option<string>) {
    b.None? || (a.Some? && StrLeq(a.value, b.value))
  }

  lemma OptLeqTotal(a: Option<string>, b: Option<string>)
    ensures OptLeq(a, b) || OptLeq(b, a)
    ensures OptLeq(a, b) && OptLeq(b, a) ==> a == b
  {
    if a.Some? && b.Some? {
      StrLeqTotal(a.value, b.value);
      if StrLeq(a.value, b.value) && StrLeq(b.value, a.value) {
        StrLeqAntisym(a.value, b.value);
      }
    }
  }

  lemma OptLeqTrans(a: Option<string>, b: Option<string>, c: Option<string>)
    ensures OptLeq(a, b) && OptLeq(b, c) ==> OptLeq(a, c)
  {
    if a.Some? && b.Some? && c.Some? && StrLeq(a.value, b.value) && StrLeq(b.value, c.value) {
      StrLeqTrans(a.value, b.value, c.value);
    }
  }

  /** `ORDER BY name, set_code, collector_number`: the first column that differs decides. */
  predicate KeyLeq(x: CardDefinition, y: CardDefinition) {
    if x.name != y.name then OptLeq(x.name, y.name)
    else if x.setCode != y.setCode then OptLeq(x.setCode, y.setCode)
    else OptLeq(x.collectorNumber, y.collectorNumber)
  }

  lemma KeyLeqTotal(x: CardDefinition, y: CardDefinition)
    ensures KeyLeq(x, y) || KeyLeq(y, x)
  {
    OptLeqTotal(x.name, y.name);
    OptLeqTotal(x.setCode, y.setCode);
    OptLeqTotal(x.collectorNumber, y.collectorNumber);
  }

  lemma KeyLeqTrans(x: CardDefinition, y: CardDefinition, z: CardDefinition)
    requires KeyLeq(x, y) && KeyLeq(y, z)
    ensures KeyLeq(x, z)
  {
    OptLeqTotal(x.name, y.name); OptLeqTotal(y.name, z.name); OptLeqTotal(x.name, z.name);
    OptLeqTrans(x.name, y.name, z.name); OptLeqTrans(z.name, x.name, y.name); OptLeqTrans(y.name, z.name, x.name);
    OptLeqTotal(x.setCode, y.setCode); OptLeqTotal(y.setCode, z.setCode); OptLeqTotal(x.setCode, z.setCode);
    OptLeqTrans(x.setCode, y.setCode, z.setCode); OptLeqTrans(z.setCode, x.setCode, y.setCode);
    OptLeqTrans(y.setCode, z.setCode, x.setCode);
    OptLeqTrans(x.collectorNumber, y.collectorNumber, z.collectorNumber);
  }

  predicate SortedByKey(s: seq<CardDefinition>) {
    forall i, j :: 0 <= i < j < |s| ==> KeyLeq(s[i], s[j])
  }

  /** `column ILIKE '%pattern%'` for a pattern without wildcards; a null column never matches. */
  predicate ILikeContains(column: Option<string>, pattern: string) {
    column.Some? && Contains(Lower(column.value), Lower(pattern))
  }

  /**
   * A search term the query can use as a plain substring: no `%`, no `_`
   * and no backslash, the default LIKE escape character.
   */
  predicate PlainPattern(p: Option<string>) {
    p.None? || ('%' !in p.value && '_' !in p.value && '\\' !in p.value)
  }

  /** The three optional filters; an empty or absent parameter does not filter. */
  predicate PassesFilters(c: CardDefinition, name: Option<string>, typeLine: Option<string>, setCode: Option<string>) {
    (Truthy(name) ==> ILikeContains(c.name, name.value)) &&
    (Truthy(typeLine) ==> ILikeContains(c.typeLine, typeLine.value)) &&
    (Truthy(setCode) ==> ILikeContains(c.setCode, setCode.value))
  }

  function Filtered(rows: seq<CardDefinition>, name: Option<string>, typeLine: Option<string>, setCode: Option<string>): (r: seq<CardDefinition>)
    ensures forall c :: c in r <==> c in rows && PassesFilters(c, name, typeLine, setCode)
    ensures |r| <= |rows|
  {
    if rows == [] then []
    else
      var rest := Filtered(rows[1..], name, typeLine, setCode);
      assert forall c :: c in rows <==> c == rows[0] || c in rows[1..];
      if PassesFilters(rows[0], name, typeLine, setCode) then [rows[0]] + rest else rest
  }

  function Insert(x: CardDefinition, s: seq<CardDefinition>): seq<CardDefinition> {
    if s == [] then [x]
    else if KeyLeq(x, s[0]) then [x] + s
    else [s[0]] + Insert(x, s[1..])
  }

  lemma {:induction false} InsertSorted(x: CardDefinition, s: seq<CardDefinition>)
    requires SortedByKey(s)
    ensures SortedByKey(Insert(x, s))
    ensures multiset(Insert(x, s)) == multiset(s) + multiset{x}
  {
    if s == [] {
    } else if KeyLeq(x, s[0]) {
      var r := [x] + s;
      forall i, j | 0 <= i < j < |r| ensures KeyLeq(r[i], r[j]) {
        if i == 0 && j > 1 {
          KeyLeqTrans(x, s[0], s[j - 1]);
        }
      }
    } else {
      KeyLeqTotal(x, s[0]);
      InsertSorted(x, s[1..]);
      var tail := Insert(x, s[1..]);
      var r := [s[0]] + tail;
      assert s == [s[0]] + s[1..];
      forall i, j | 0 <= i < j < |r| ensures KeyLeq(r[i], r[j]) {
        if i == 0 {
          var y := tail[j - 1];
          assert y in multiset(tail);
          assert y == x || y in multiset(s[1..]);
          if y != x {
            var k :| 0 <= k < |s[1..]| && s[1..][k] == y;
            assert s[k + 1] == y;
          }
        }
      }
    }
  }

  /** Insertion sort on the catalog key. */
  function SortByKey(s: seq<CardDefinition>): seq<CardDefinition> {
    if s == [] then [] else Insert(s[0], SortByKey(s[1..]))
  }

  /** The sort orders its input and keeps every row, as many times as it occurs. */
  lemma {:induction false} SortByKeyCorrect(s: seq<CardDefinition>)
    ensures SortedByKey(SortByKey(s))
    ensures multiset(SortByKey(s)) == multiset(s)
  {
    if s != [] {
      SortByKeyCorrect(s[1..]);
      InsertSorted(s[0], SortByKey(s[1..]));
      assert s == [s[0]] + s[1..];
    }
  }

  /** `OFFSET skip LIMIT limit`. */
  function Window<T>(s: seq<T>, skip: nat, limit: nat): (r: seq<T>)
    ensures |r| == if skip >= |s| then 0 else if limit < |s| - skip then limit else |s| - skip
    ensures forall k :: 0 <= k < |r| ==> r[k] == s[skip + k]
  {
    if skip >= |s| then [] else if limit < |s| - skip then s[skip..skip + limit] else s[skip..]
  }

  /**
   * `get_card_definitions`: the rows that pass the filters, ordered by
   * (name, set_code, collector_number) with nulls last, without the first
   * `skip` of them, at most `limit` of them. PostgreSQL rejects a negative
   * OFFSET or LIMIT, which fails the request.
   */
  function GetCardDefinitions(rows: seq<CardDefinition>, skip: int, limit: int,
                              name: Option<string>, typeLine: Option<string>, setCode: Option<string>)
    : (r: Result<seq<CardDefinition>, CrudError>)
    requires PlainPattern(name) && PlainPattern(typeLine) && PlainPattern(setCode)
    ensures r.Err? <==> skip < 0 || limit < 0
    ensures r.Err? ==> r.error == NegativeWindow
    ensures r.Ok? ==> |r.value| <= limit
    ensures r.Ok? ==> forall c :: c in r.value ==> c in rows && PassesFilters(c, name, typeLine, setCode)
    ensures r.Ok? ==> SortedByKey(r.value)
    ensures r.Ok? ==> var matching := |Filtered(rows, name, typeLine, setCode)|;
            |r.value| == if skip >= matching then 0 else if limit < matching - skip then limit else matching - skip
    ensures r.Ok? ==> r.value == Window(SortByKey(Filtered(rows, name, typeLine, setCode)), skip, limit)
  {
    if skip < 0 || limit < 0 then Err(NegativeWindow)
    else
      var sorted := SortByKey(Filtered(rows, name, typeLine, setCode));
      SortByKeyCorrect(Filtered(rows, name, typeLine, setCode));
      assert |sorted| == |Filtered(rows, name, typeLine, setCode)| by {
        assert |multiset(sorted)| == |multiset(Filtered(rows, name, typeLine, setCode))|;
      }
      var r := Window(sorted, skip, limit);
      assert forall c :: c in r ==> c in multiset(sorted);
      Ok(r)
  }

  // ------------------------------------------- collection and deck entries

  /** No two collection entries share a (user, card) pair. */
  predicate UniqueCollectionKeys(entries: seq<UserCollectionEntry>) {
    forall i, j :: 0 <= i < j < |entries| ==>
      entries[i].userId != entries[j].userId || entries[i].cardId != entries[j].cardId
  }

  /**
   * An existing entry after a repeated add: given quantities are added,
   * given condition, language and notes overwrite, unset fields stay; a
   * language explicitly set to null violates NOT NULL.
   */
  function MergedCollectionEntry(e: UserCollectionEntry, c: UserCollectionEntryCreate): (r: Result<UserCollectionEntry, CrudError>)
    ensures r.Err? <==> c.language == Given(None)
    ensures r.Err? ==> r.error == NotNullViolation
    ensures r.Ok? ==> r.value.userId == e.userId && r.value.cardId == e.cardId
    ensures r.Ok? && c.quantityNormal.Unset? ==> r.value.quantityNormal == e.quantityNormal
    ensures r.Ok? && c.quantityNormal.Given? ==> r.value.quantityNormal == e.quantityNormal + c.quantityNormal.value
    ensures r.Ok? && c.quantityFoil.Unset? ==> r.value.quantityFoil == e.quantityFoil
    ensures r.Ok? && c.quantityFoil.Given? ==> r.value.quantityFoil == e.quantityFoil + c.quantityFoil.value
    ensures r.Ok? ==> r.value.condition == c.condition.Or(e.condition) && r.value.notes == c.notes.Or(e.notes)
    ensures r.Ok? && c.language.Unset? ==> r.value.language == e.language
    ensures r.Ok? && c.language.Given? ==> Some(r.value.language) == c.language.value
  {
    var e1 := if c.quantityNormal.Given? then e.(quantityNormal := e.quantityNormal + c.quantityNormal.value) else e;
    var e2 := if c.quantityFoil.Given? then e1.(quantityFoil := e1.quantityFoil + c.quantityFoil.value) else e1;
    var e3 := if c.condition.Given? then e2.(condition := c.condition.value) else e2;
    if c.language == Given(None) then Err(NotNullViolation)
    else
      var e4 := if c.language.Given? then e3.(language := c.language.value.value) else e3;
      Ok(if c.notes.Given? then e4.(notes := c.notes.value) else e4)
  }

  /**
   * A new entry: every field of the request, defaults included. A language
   * given as null is left out of the INSERT by the ORM, so the column
   * default "en" is stored instead.
   */
  function CreatedCollectionEntry(userId: int, cardId: string, c: UserCollectionEntryCreate): (r: UserCollectionEntry)
    ensures r.userId == userId && r.cardId == cardId
    ensures var f := CollectionCreateFields(c);
            r.quantityNormal == f.quantityNormal && r.quantityFoil == f.quantityFoil &&
            r.condition == f.condition && r.notes == f.notes
    ensures c.language.Unset? || c.language == Given(None) ==> r.language == "en"
    ensures c.language.Given? && c.language.value.Some? ==> r.language == c.language.value.value
  {
    var f := CollectionCreateFields(c);
    UserCollectionEntry(userId, cardId, f.quantityNormal, f.quantityFoil, f.condition,
                        if f.language.None? then "en" else f.language.value, f.notes)
  }

  /**
   * An entry after a partial update: each field the request sets is
   * overwritten, the others stay; setting a quantity or the language to
   * null violates NOT NULL.
   */
  function UpdatedCollectionEntry(e: UserCollectionEntry, u: UserCollectionEntryUpdate): (r: Result<UserCollectionEntry, CrudError>)
    ensures r.Err? <==> u.quantityNormal == Given(None) || u.quantityFoil == Given(None) || u.language == Given(None)
    ensures r.Err? ==> r.error == NotNullViolation
    ensures r.Ok? ==> r.value.userId == e.userId && r.value.cardId == e.cardId
    ensures r.Ok? ==> Some(r.value.quantityNormal) == u.quantityNormal.Or(Some(e.quantityNormal))
    ensures r.Ok? ==> Some(r.value.quantityFoil) == u.quantityFoil.Or(Some(e.quantityFoil))
    ensures r.Ok? ==> Some(r.value.language) == u.language.Or(Some(e.language))
    ensures r.Ok? ==> r.value.condition == u.condition.Or(e.condition) && r.value.notes == u.notes.Or(e.notes)
    ensures IsEmptyCollectionUpdate(u) ==> r == Ok(e)
  {
    if u.quantityNormal == Given(None) || u.quantityFoil == Given(None) || u.language == Given(None) then Err(NotNullViolation)
    else Ok(UserCollectionEntry(e.userId, e.cardId,
                                u.quantityNormal.Or(Some(e.quantityNormal)).value,
                                u.quantityFoil.Or(Some(e.quantityFoil)).value,
                                u.condition.Or(e.condition),
                                u.language.Or(Some(e.language)).value,
                                u.notes.Or(e.notes)))
  }

  /**
   * The format-legality gate of `add_card_to_deck`: a deck without a
   * (non-empty) format accepts any card; otherwise the card needs non-empty
   * legalities whose entry for the lower-cased format is exactly "legal".
   */
  function LegalityVerdict(format: Option<string>, legalities: Option<Legalities>): (r: Option<CrudError>)
    ensures r.None? <==> (!Truthy(format) ||
              (legalities.Some? && Lower(format.value) in legalities.value && legalities.value[Lower(format.value)] == "legal"))
    ensures r == Some(LegalityUnavailable) <==> Truthy(format) && (legalities.None? || legalities.value == map[])
    ensures r.Some? ==> r.value == LegalityUnavailable || r.value == NotLegal
  {
    if !Truthy(format) then None
    else if legalities.None? || legalities.value == map[] then Some(LegalityUnavailable)
    else
      var key := Lower(format.value);
      if key in legalities.value && legalities.value[key] == "legal" then None else Some(NotLegal)
  }

  /** An entry after a partial update; only a null quantity violates NOT NULL. */
  function UpdatedDeckEntry(e: DeckEntry, u: DeckEntryUpdate): (r: Result<DeckEntry, CrudError>)
    ensures r.Err? <==> u.quantity == Given(None)
    ensures r.Ok? ==> r.value.deckId == e.deckId && r.value.cardId == e.cardId
    ensures r.Ok? ==> Some(r.value.quantity) == u.quantity.Or(Some(e.quantity))
    ensures r.Ok? ==> r.value.isCommander == u.isCommander.Or(e.isCommander) && r.value.isSideboard == u.isSideboard.Or(e.isSideboard)
    ensures u == DeckEntryUpdate(Unset, Unset, Unset) ==> r == Ok(e)
  {
    if u.quantity == Given(None) then Err(NotNullViolation)
    else Ok(DeckEntry(e.deckId, e.cardId, u.quantity.Or(Some(e.quantity)).value,
                      u.isCommander.Or(e.isCommander), u.isSideboard.Or(e.isSideboard)))
  }

  /** A deck after a partial update; only a null name violates NOT NULL. */
  function UpdatedDeck(d: Deck, u: DeckUpdate): (r: Result<Deck, CrudError>)
    ensures r.Err? <==> u.name == Given(None)
    ensures r.Ok? ==> r.value.id == d.id && r.value.userId == d.userId
    ensures r.Ok? ==> Some(r.value.name) == u.name.Or(Some(d.name))
    ensures r.Ok? ==> r.value.description == u.description.Or(d.description) && r.value.format == u.format.Or(d.format)
    ensures IsEmptyDeckUpdate(u) ==> r == Ok(d)
  {
    if u.name == Given(None) then Err(NotNullViolation)
    else Ok(Deck(d.id, d.userId, u.name.Or(Some(d.name)).value, u.description.Or(d.description), u.format.Or(d.format)))
  }

  // --------------------------------------------------------------- the store

  class Database {
    var cards: CardStore
    var collection: seq<UserCollectionEntry>
    var decks: map<int, Deck>
    var deckEntries: seq<DeckEntry>

    /**
     * Card definitions sit under their Scryfall id; every entry refers to a
     * stored card (and a deck entry to a stored deck); quantities are never
     * negative; a user holds at most one collection entry per card.
     */
    ghost predicate Valid()
      reads this
    {
      KeyedById(cards) &&
      (forall id :: id in decks ==> decks[id].id == id) &&
      (forall i :: 0 <= i < |collection| ==>
         collection[i].cardId in cards && collection[i].quantityNormal >= 0 && collection[i].quantityFoil >= 0) &&
      UniqueCollectionKeys(collection) &&
      (forall i :: 0 <= i < |deckEntries| ==>
         deckEntries[i].deckId in decks && deckEntries[i].cardId in cards && deckEntries[i].quantity >= 0)
    }

    constructor ()
      ensures Valid() && cards == map[] && collection == [] && decks == map[] && deckEntries == []
    {
      cards, collection, decks, deckEntries := map[], [], map[], [];
    }

    /**
     * `_fetch_and_store_card_definition_from_scryfall`: ask upstream, build
     * the row, download what has a URI and insert it. Any upstream error, a
     * record without id or name, or an id already stored (the flush fails on
     * the unique key) gives `None` and stores nothing.
     */
    method FetchAndStore(scryfallId: string, upstream: string -> Upstream, fetch: Fetcher) returns (stored: Option<string>)
      requires Valid()
      modifies this`cards
      ensures Valid()
      ensures stored == FetchedKey(old(cards), upstream(scryfallId), fetch)
      ensures stored.Some? ==> cards == old(cards)[stored.value := ReadThroughRow(upstream(scryfallId).raw, fetch).value]
      ensures stored.None? ==> cards == old(cards)
    {
      var answer := upstream(scryfallId);
      if !answer.Payload? {
        return None;
      }
      var raw := answer.raw;
      var u := raw.imageUris;
      var row := CardDefinition("", raw.name, raw.setCode, raw.collectorNumber, raw.typeLine, raw.legalities,
                                ImageSlot(u.small, None), ImageSlot(u.normal, None), ImageSlot(u.large, None),
                                u.artCrop, u.borderCrop);
      if !Truthy(raw.id) || !Truthy(raw.name) {
        return None;
      }
      row := row.(scryfallId := raw.id.value);
      if Truthy(row.small.uri) {
        row := row.(small := row.small.(data := Download(row.small.uri, fetch)));
      }
      if Truthy(row.normal.uri) {
        row := row.(normal := row.normal.(data := Download(row.normal.uri, fetch)));
      }
      if Truthy(row.large.uri) {
        row := row.(large := row.large.(data := Download(row.large.uri, fetch)));
      }
      if row.scryfallId in cards {
        return None;
      }
      cards := cards[row.scryfallId := row];
      stored := Some(row.scryfallId);
    }

    /** The card a request names: looked up locally, fetched when missing. */
    method ResolveCard(scryfallId: string, upstream: string -> Upstream, fetch: Fetcher) returns (key: Option<string>)
      requires Valid()
      modifies this`cards
      ensures Valid()
      ensures key == ResolvedKey(old(cards), scryfallId, upstream, fetch)
      ensures key.Some? ==> key.value in cards
      ensures key.Some? && key.value !in old(cards) ==> cards == old(cards)[key.value := ReadThroughRow(upstream(scryfallId).raw, fetch).value]
      ensures key.None? || key.value in old(cards) ==> cards == old(cards)
    {
      if scryfallId in cards {
        return Some(scryfallId);
      }
      key := FetchAndStore(scryfallId, upstream, fetch);
    }

    /** The first collection entry of `userId` for `cardId`. */
    method FindCollectionEntry(userId: int, cardId: string) returns (k: Option<nat>)
      ensures k.Some? ==> k.value < |collection| && collection[k.value].userId == userId && collection[k.value].cardId == cardId
      ensures k.Some? ==> forall i :: 0 <= i < k.value ==> collection[i].userId != userId || collection[i].cardId != cardId
      ensures k.None? ==> forall i :: 0 <= i < |collection| ==> collection[i].userId != userId || collection[i].cardId != cardId
    {
      var i := 0;
      while i < |collection|
        invariant 0 <= i <= |collection|
        invariant forall j :: 0 <= j < i ==> collection[j].userId != userId || collection[j].cardId != cardId
      {
        if collection[i].userId == userId && collection[i].cardId == cardId {
          return Some(i);
        }
        i := i + 1;
      }
      return None;
    }

    /**
     * `add_card_to_collection`: resolve the card, then merge into the user's
     * existing entry for it or append a new one. `r` is the position of the
     * entry written.
     */
    method AddCardToCollection(userId: int, c: UserCollectionEntryCreate, upstream: string -> Upstream, fetch: Fetcher)
      returns (r: Result<nat, CrudError>)
      requires Valid() && ValidCollectionCreate(c)
      modifies this`cards, this`collection
      ensures Valid()
      ensures r.Err? ==> cards == old(cards) && collection == old(collection)
      ensures ResolvedKey(old(cards), c.cardScryfallId, upstream, fetch).None? ==> r == Err(CardUnavailable)
      ensures r.Ok? ==> ResolvedKey(old(cards), c.cardScryfallId, upstream, fetch).Some?
      ensures r.Ok? ==> var key := ResolvedKey(old(cards), c.cardScryfallId, upstream, fetch).value;
                r.value < |collection| && collection[r.value].userId == userId && collection[r.value].cardId == key
      ensures r.Ok? && r.value < |old(collection)| ==>
                MergedCollectionEntry(old(collection)[r.value], c) == Ok(collection[r.value]) &&
                collection == old(collection)[r.value := collection[r.value]]
      ensures r.Ok? && r.value == |old(collection)| ==>
                CreatedCollectionEntry(userId, collection[r.value].cardId, c) == collection[r.value] &&
                collection == old(collection) + [collection[r.value]]
      ensures r.Ok? ==> r.value <= |old(collection)|
      ensures r.Ok? && r.value == |old(collection)| ==>
                forall i :: 0 <= i < |old(collection)| ==> old(collection)[i].userId != userId || old(collection)[i].cardId != collection[r.value].cardId
    {
      var snapshot := cards;
      var key := ResolveCard(c.cardScryfallId, upstream, fetch);
      if key.None? {
        return Err(CardUnavailable);
      }
      var k := FindCollectionEntry(userId, key.value);
      if k.Some? {
        var merged := MergedCollectionEntry(collection[k.value], c);
        if merged.Err? {
          cards := snapshot;
          return Err(merged.error);
        }
        collection := collection[k.value := merged.value];
        r := Ok(k.value);
      } else {
        var created := CreatedCollectionEntry(userId, key.value, c);
        collection := collection + [created];
        r := Ok(|collection| - 1);
      }
    }

    /** `update_collection_entry`: apply the fields the request sets to the entry at `k`. */
    method UpdateCollectionEntry(k: nat, u: UserCollectionEntryUpdate) returns (r: Result<UserCollectionEntry, CrudError>)
      requires Valid() && k < |collection| && ValidCollectionUpdate(u)
      modifies this`collection
      ensures Valid()
      ensures r == UpdatedCollectionEntry(old(collection)[k], u)
      ensures r.Ok? ==> collection == old(collection)[k := r.value]
      ensures r.Err? ==> collection == old(collection)
    {
      var e := collection[k];
      if u.quantityNormal.Given? {
        if u.quantityNormal.value.None? { return Err(NotNullViolation); }
        e := e.(quantityNormal := u.quantityNormal.value.value);
      }
      if u.quantityFoil.Given? {
        if u.quantityFoil.value.None? { return Err(NotNullViolation); }
        e := e.(quantityFoil := u.quantityFoil.value.value);
      }
      if u.condition.Given? {
        e := e.(condition := u.condition.value);
      }
      if u.language.Given? {
        if u.language.value.None? { return Err(NotNullViolation); }
        e := e.(language := u.language.value.value);
      }
      if u.notes.Given? {
        e := e.(notes := u.notes.value);
      }
      collection := collection[k := e];
      r := Ok(e);
    }

    /** `update_deck`: apply the fields the request sets to the deck `deckId`. */
    method UpdateDeck(deckId: int, u: DeckUpdate) returns (r: Result<Deck, CrudError>)
      requires Valid() && deckId in decks
      modifies this`decks
      ensures Valid()
      ensures r == UpdatedDeck(old(decks)[deckId], u)
      ensures r.Ok? ==> decks == old(decks)[deckId := r.value]
      ensures r.Err? ==> decks == old(decks)
    {
      var d := decks[deckId];
      if u.name.Given? {
        if u.name.value.None? { return Err(NotNullViolation); }
        d := d.(name := u.name.value.value);
      }
      if u.description.Given? {
        d := d.(description := u.description.value);
      }
      if u.format.Given? {
        d := d.(format := u.format.value);
      }
      decks := decks[deckId := d];
      r := Ok(d);
    }

    /** Deleting a deck deletes its entries with it. */
    method DeleteDeck(deckId: int)
      requires Valid() && deckId in decks
      modifies this`decks, this`deckEntries
      ensures Valid()
      ensures decks == old(decks) - {deckId}
      ensures deckEntries == WithoutDeck(old(deckEntries), deckId)
    {
      decks := decks - {deckId};
      deckEntries := WithoutDeck(deckEntries, deckId);
      assert forall i :: 0 <= i < |deckEntries| ==> deckEntries[i] in old(deckEntries);
    }

    /** The first entry of deck `deckId` for `cardId` whose sideboard flag is `isSideboard`. */
    method FindDeckEntry(deckId: int, cardId: string, isSideboard: bool) returns (k: Option<nat>)
      ensures k.Some? ==> k.value < |deckEntries| && deckEntries[k.value].deckId == deckId &&
                          deckEntries[k.value].cardId == cardId && deckEntries[k.value].isSideboard == Some(isSideboard)
      ensures k.Some? ==> forall i :: 0 <= i < k.value ==>
                !(deckEntries[i].deckId == deckId && deckEntries[i].cardId == cardId && deckEntries[i].isSideboard == Some(isSideboard))
      ensures k.None? ==> forall i :: 0 <= i < |deckEntries| ==>
                !(deckEntries[i].deckId == deckId && deckEntries[i].cardId == cardId && deckEntries[i].isSideboard == Some(isSideboard))
    {
      var i := 0;
      while i < |deckEntries|
        invariant 0 <= i <= |deckEntries|
        invariant forall j :: 0 <= j < i ==>
          !(deckEntries[j].deckId == deckId && deckEntries[j].cardId == cardId && deckEntries[j].isSideboard == Some(isSideboard))
      {
        var e := deckEntries[i];
        if e.deckId == deckId && e.cardId == cardId && e.isSideboard == Some(isSideboard) {
          return Some(i);
        }
        i := i + 1;
      }
      return None;
    }

    /**
     * `add_card_to_deck`: resolve the card, pass the legality gate, then add
     * the quantity to the entry with the same (deck, card, sideboard flag)
     * and overwrite its commander flag, or append a new entry.
     */
    method AddCardToDeck(deckId: int, c: DeckEntryCreate, upstream: string -> Upstream, fetch: Fetcher)
      returns (r: Result<nat, CrudError>)
      requires Valid() && deckId in decks && ValidDeckEntryCreate(c)
      modifies this`cards, this`deckEntries
      ensures Valid()
      ensures r.Err? ==> cards == old(cards) && deckEntries == old(deckEntries)
      ensures ResolvedKey(old(cards), c.cardScryfallId, upstream, fetch).None? ==> r == Err(CardUnavailable)
      ensures r.Ok? ==> ResolvedKey(old(cards), c.cardScryfallId, upstream, fetch).Some?
      ensures ResolvedKey(old(cards), c.cardScryfallId, upstream, fetch).Some? ==>
                var key := ResolvedKey(old(cards), c.cardScryfallId, upstream, fetch).value;
                var row := if key in old(cards) then old(cards)[key] else ReadThroughRow(upstream(c.cardScryfallId).raw, fetch).value;
                (r.Err? <==> LegalityVerdict(decks[deckId].format, row.legalities).Some?) &&
                (r.Err? ==> r.error == LegalityVerdict(decks[deckId].format, row.legalities).value)
      ensures r.Ok? ==> r.value <= |old(deckEntries)| && r.value < |deckEntries|
      ensures r.Ok? && r.value < |old(deckEntries)| ==>
                var e := old(deckEntries)[r.value];
                deckEntries == old(deckEntries)[r.value := e.(quantity := e.quantity + c.quantity, isCommander := Some(c.isCommander))] &&
                e.deckId == deckId && e.isSideboard == Some(c.isSideboard) &&
                e.cardId == ResolvedKey(old(cards), c.cardScryfallId, upstream, fetch).value
      ensures r.Ok? && r.value == |old(deckEntries)| ==>
                deckEntries == old(deckEntries) + [DeckEntry(deckId, ResolvedKey(old(cards), c.cardScryfallId, upstream, fetch).value,
                                                             c.quantity, Some(c.isCommander), Some(c.isSideboard))]
    {
      var snapshot := cards;
      var key := ResolveCard(c.cardScryfallId, upstream, fetch);
      if key.None? {
        return Err(CardUnavailable);
      }
      var card := cards[key.value];
      var verdict := LegalityVerdict(decks[deckId].format, card.legalities);
      if verdict.Some? {
        cards := snapshot;
        return Err(verdict.value);
      }
      var k := FindDeckEntry(deckId, key.value, c.isSideboard);
      if k.Some? {
        var e := deckEntries[k.value];
        e := e.(quantity := e.quantity + c.quantity);
        e := e.(isCommander := Some(c.isCommander));
        deckEntries := deckEntries[k.value := e];
        r := Ok(k.value);
      } else {
        deckEntries := deckEntries + [DeckEntry(deckId, key.value, c.quantity, Some(c.isCommander), Some(c.isSideboard))];
        r := Ok(|deckEntries| - 1);
      }
    }

    /** `update_deck_entry`: apply the fields the request sets to the entry at `k`. */
    method UpdateDeckEntry(k: nat, u: DeckEntryUpdate) returns (r: Result<DeckEntry, CrudError>)
      requires Valid() && k < |deckEntries| && ValidDeckEntryUpdate(u)
      modifies this`deckEntries
      ensures Valid()
      ensures r == UpdatedDeckEntry(old(deckEntries)[k], u)
      ensures r.Ok? ==> deckEntries == old(deckEntries)[k := r.value]
      ensures r.Err? ==> deckEntries == old(deckEntries)
    {
      var e := deckEntries[k];
      if u.quantity.Given? {
        if u.quantity.value.None? { return Err(NotNullViolation); }
        e := e.(quantity := u.quantity.value.value);
      }
      if u.isCommander.Given? {
        e := e.(isCommander := u.isCommander.value);
      }
      if u.isSideboard.Given? {
        e := e.(isSideboard := u.isSideboard.value);
      }
      deckEntries := deckEntries[k := e];
      r := Ok(e);
    }
  }
}
