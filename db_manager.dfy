/**
 * The storage side of the EDHREC scraper: the card id lookup by name, the
 * commander statistics upsert and the two bulk synergy upserts.
 *
 * A synergy table is a sequence of rows in insertion order. Its unique key
 * is (owner id, card id, source list), where the owner is the commander
 * (commander-card table) or the primary card (card-card table). As in
 * PostgreSQL, a NULL source list never conflicts with anything, so such a
 * row is always inserted afresh. The bulk insert is sent in pages of 100
 * rows; a page that proposes the same key twice makes the statement fail,
 * and any failure rolls the whole call back.
 */
module DbManager {
  import opened Wrappers
  import opened Models
  import opened Parsers

  // ------------------------------------------------------ card id by name

  /** A row of the cards table as the lookup by name reads it. */
  datatype CardRow = CardRow(id: int, name: string)

  /** The first row from `i` on whose name is `name`. */
  function FirstNamed(cards: seq<CardRow>, name: string, i: nat): (r: Option<nat>)
    requires i <= |cards|
    ensures r.Some? ==> i <= r.value < |cards| && cards[r.value].name == name
    ensures r.Some? ==> forall j :: i <= j < r.value ==> cards[j].name != name
    ensures r.None? ==> forall j :: i <= j < |cards| ==> cards[j].name != name
    decreases |cards| - i
  {
    if i == |cards| then None
    else if cards[i].name == name then Some(i)
    else FirstNamed(cards, name, i + 1)
  }

  /**
   * `get_card_id_by_name`: the id of the first row with that name; nothing
   * when no row has it or the query fails (`failed`).
   */
  function CardIdByName(cards: seq<CardRow>, cardName: string, failed: bool): (r: Option<int>)
    ensures r.Some? <==> !failed && exists k :: 0 <= k < |cards| && cards[k].name == cardName
    ensures r.Some? ==> exists k :: 0 <= k < |cards| && cards[k] == CardRow(r.value, cardName) &&
                                     forall j :: 0 <= j < k ==> cards[j].name != cardName
  {
    if failed then None
    else match FirstNamed(cards, cardName, 0)
      case Some(k) => assert cards[k] == CardRow(cards[k].id, cardName); Some(cards[k].id)
      case None => None
  }

  // ------------------------------------------------------ synergy rows

  /** One row of a synergy table; `ownerId` is the commander or the primary card. */
  datatype SynergyRow = SynergyRow(ownerId: int, cardId: int, sourceList: Option<string>,
                                   inclusion: Option<real>, synergy: Option<real>)

  /** The rows conflict on the unique key; a NULL source list conflicts with nothing. */
  predicate SameKey(a: SynergyRow, b: SynergyRow) {
    a.sourceList.Some? && a.ownerId == b.ownerId && a.cardId == b.cardId && a.sourceList == b.sourceList
  }

  predicate UniqueKeys(rows: seq<SynergyRow>) {
    forall i, j :: 0 <= i < j < |rows| ==> !SameKey(rows[i], rows[j])
  }

  /**
   * The id a scraped item is stored under: none for a missing or empty
   * card name, and none when the lookup finds nothing or finds the falsy
   * id 0.
   */
  function ResolvedId(item: RelatedCard, cards: seq<CardRow>): (r: Option<int>)
    ensures r.Some? ==> Truthy(item.cardName) && r.value != 0 &&
                        CardIdByName(cards, item.cardName.value, false) == r
    ensures Truthy(item.cardName) && CardIdByName(cards, item.cardName.value, false).Some? &&
            CardIdByName(cards, item.cardName.value, false).value != 0 ==>
              r == CardIdByName(cards, item.cardName.value, false)
  {
    if !Truthy(item.cardName) then None
    else match CardIdByName(cards, item.cardName.value, false)
      case Some(id) => if id != 0 then Some(id) else None
      case None => None
  }

  function RowOf(ownerId: int, item: RelatedCard, id: int): SynergyRow {
    SynergyRow(ownerId, id, item.sourceList, item.inclusion, item.synergy)
  }

  /**
   * The tuples the filter loop collects, in input order: one per item
   * whose name resolves, carrying the owner, the resolved id and the
   * item's source list, inclusion and synergy.
   */
  function SynergyRows(ownerId: int, items: seq<RelatedCard>, cards: seq<CardRow>): (r: seq<SynergyRow>)
    ensures |r| <= |items|
    ensures forall k :: 0 <= k < |r| ==> r[k].ownerId == ownerId
  {
    if |items| == 0 then []
    else
      var last := items[|items| - 1];
      SynergyRows(ownerId, items[..|items| - 1], cards) +
        (match ResolvedId(last, cards) case Some(id) => [RowOf(ownerId, last, id)] case None => [])
  }

  /** Every item whose name resolves gives its tuple. */
  lemma {:induction false} SynergyRowsComplete(ownerId: int, items: seq<RelatedCard>, cards: seq<CardRow>, i: nat)
    requires i < |items| && ResolvedId(items[i], cards).Some?
    ensures RowOf(ownerId, items[i], ResolvedId(items[i], cards).value) in SynergyRows(ownerId, items, cards)
  {
    var init := items[..|items| - 1];
    if i < |items| - 1 {
      assert init[i] == items[i];
      SynergyRowsComplete(ownerId, init, cards, i);
    }
  }

  /** Every tuple comes from an item whose name resolved to the tuple's card id. */
  lemma {:induction false} SynergyRowsSound(ownerId: int, items: seq<RelatedCard>, cards: seq<CardRow>, k: nat)
    returns (i: nat)
    requires k < |SynergyRows(ownerId, items, cards)|
    ensures var t := SynergyRows(ownerId, items, cards)[k];
            i < |items| && ResolvedId(items[i], cards) == Some(t.cardId) && t == RowOf(ownerId, items[i], t.cardId)
  {
    var init := items[..|items| - 1];
    var r0 := SynergyRows(ownerId, init, cards);
    if k < |r0| {
      assert SynergyRows(ownerId, items, cards)[k] == r0[k];
      i := SynergyRowsSound(ownerId, init, cards, k);
      assert init[i] == items[i];
    } else {
      i := |items| - 1;
    }
  }

  /**
   * The tuples keep the order of the items: the tuples of a list of items
   * followed by more items are the first list's tuples followed by the
   * rest's.
   */
  lemma {:induction false} SynergyRowsAppend(ownerId: int, a: seq<RelatedCard>, b: seq<RelatedCard>, cards: seq<CardRow>)
    ensures SynergyRows(ownerId, a + b, cards) == SynergyRows(ownerId, a, cards) + SynergyRows(ownerId, b, cards)
    decreases |b|
  {
    if |b| == 0 {
      assert a + b == a;
    } else {
      var initB := b[..|b| - 1];
      assert (a + b)[..|a + b| - 1] == a + initB;
      assert (a + b)[|a + b| - 1] == b[|b| - 1];
      SynergyRowsAppend(ownerId, a, initB, cards);
    }
  }

  /**
   * The loop of `save_commander_card_synergies` and
   * `save_card_card_synergies` that turns scraped items into tuples.
   */
  method CollectSynergyRows(ownerId: int, items: seq<RelatedCard>, cards: seq<CardRow>) returns (rows: seq<SynergyRow>)
    ensures rows == SynergyRows(ownerId, items, cards)
  {
    rows := [];
    var i := 0;
    while i < |items|
      invariant 0 <= i <= |items|
      invariant rows == SynergyRows(ownerId, items[..i], cards)
    {
      assert items[..i + 1][..i] == items[..i];
      var item := items[i];
      if !Truthy(item.cardName) {
        i := i + 1;
        continue;
      }
      var id := CardIdByName(cards, item.cardName.value, false);
      if id.Some? && id.value != 0 {
        rows := rows + [RowOf(ownerId, item, id.value)];
      }
      i := i + 1;
    }
    assert items[..i] == items;
  }

  // ------------------------------------------------------------ upsert

  /** The first row from `i` on that conflicts with `t`. */
  function Conflicting(rows: seq<SynergyRow>, t: SynergyRow, i: nat): (r: Option<nat>)
    requires i <= |rows|
    ensures r.Some? ==> i <= r.value < |rows| && SameKey(rows[r.value], t)
    ensures r.Some? ==> forall j :: i <= j < r.value ==> !SameKey(rows[j], t)
    ensures r.None? ==> forall k :: i <= k < |rows| ==> !SameKey(rows[k], t)
    decreases |rows| - i
  {
    if i == |rows| then None
    else if SameKey(rows[i], t) then Some(i)
    else Conflicting(rows, t, i + 1)
  }

  /**
   * One `INSERT ... ON CONFLICT DO UPDATE`: a conflicting row gets the
   * new inclusion and synergy; otherwise the tuple is appended. The tuple
   * is then in the table, every row not conflicting with it is where it
   * was, and the keys stay unique.
   */
  function Upsert(rows: seq<SynergyRow>, t: SynergyRow): (r: seq<SynergyRow>)
    ensures t in r
    ensures |rows| <= |r| <= |rows| + 1
    ensures forall k :: 0 <= k < |rows| && !SameKey(rows[k], t) ==> r[k] == rows[k]
    ensures UniqueKeys(rows) ==> UniqueKeys(r)
    ensures (forall k :: 0 <= k < |rows| ==> !SameKey(rows[k], t)) ==> r == rows + [t]
    ensures forall k :: 0 <= k < |rows| && SameKey(rows[k], t) && (forall j :: 0 <= j < k ==> !SameKey(rows[j], t)) ==>
              |r| == |rows| && r[k] == t
    ensures UniqueKeys(rows) ==> forall k :: 0 <= k < |rows| && SameKey(rows[k], t) ==> |r| == |rows| && r[k] == t
  {
    match Conflicting(rows, t, 0)
    case Some(k) =>
      var r := rows[k := rows[k].(inclusion := t.inclusion, synergy := t.synergy)];
      assert r[k] == t;
      assert forall c :: 0 <= c < |rows| && SameKey(rows[c], t) && c != k ==> SameKey(rows[c], rows[k]);
      assert forall i :: 0 <= i < |r| ==>
        (r[i].ownerId == rows[i].ownerId && r[i].cardId == rows[i].cardId && r[i].sourceList == rows[i].sourceList);
      r
    case None =>
      rows + [t]
  }

  /** The tuples upserted one after the other. */
  function UpsertAll(rows: seq<SynergyRow>, ts: seq<SynergyRow>): (r: seq<SynergyRow>)
    ensures UniqueKeys(rows) ==> UniqueKeys(r)
    ensures |r| <= |rows| + |ts|
    decreases |ts|
  {
    if |ts| == 0 then rows else UpsertAll(Upsert(rows, ts[0]), ts[1..])
  }

  /** execute_values' page size. */
  const PageSize: nat := 100

  /** Two tuples of the same page of the bulk insert conflict with each other. */
  predicate PageRepeatsKey(ts: seq<SynergyRow>) {
    exists i, j :: 0 <= i < j < |ts| && i / PageSize == j / PageSize && SameKey(ts[i], ts[j])
  }

  /**
   * What the bulk upsert leaves in the table: nothing changes without
   * tuples, when the database fails, or when a page repeats a key (the
   * statement cannot update a row twice, and the call rolls back);
   * otherwise every tuple is upserted in order.
   */
  function BulkUpsert(rows: seq<SynergyRow>, ts: seq<SynergyRow>, dbError: bool): (r: seq<SynergyRow>)
    ensures UniqueKeys(rows) ==> UniqueKeys(r)
    ensures |ts| == 0 || dbError || PageRepeatsKey(ts) ==> r == rows
  {
    if |ts| == 0 || dbError || PageRepeatsKey(ts) then rows else UpsertAll(rows, ts)
  }

  /** A row that no tuple of the batch conflicts with is still in the table. */
  lemma {:induction false} UntouchedRowSurvives(rows: seq<SynergyRow>, ts: seq<SynergyRow>, x: SynergyRow)
    requires x in rows
    requires forall j :: 0 <= j < |ts| ==> !SameKey(x, ts[j])
    ensures x in UpsertAll(rows, ts)
    decreases |ts|
  {
    if |ts| > 0 {
      var k :| 0 <= k < |rows| && rows[k] == x;
      assert Upsert(rows, ts[0])[k] == x;
      forall j | 0 <= j < |ts[1..]| ensures !SameKey(x, ts[1..][j]) {
        assert ts[1..][j] == ts[j + 1];
      }
      UntouchedRowSurvives(Upsert(rows, ts[0]), ts[1..], x);
    }
  }

  /** The last tuple written for a key is the row the table keeps for it. */
  lemma {:induction false} LastWriteWins(rows: seq<SynergyRow>, ts: seq<SynergyRow>, i: nat)
    requires i < |ts|
    requires forall j :: i < j < |ts| ==> !SameKey(ts[i], ts[j])
    ensures ts[i] in UpsertAll(rows, ts)
    decreases |ts|
  {
    var rest := ts[1..];
    if i == 0 {
      forall j | 0 <= j < |rest| ensures !SameKey(ts[0], rest[j]) {
        assert rest[j] == ts[j + 1];
      }
      UntouchedRowSurvives(Upsert(rows, ts[0]), rest, ts[0]);
    } else {
      forall j | i - 1 < j < |rest| ensures !SameKey(rest[i - 1], rest[j]) {
        assert rest[j] == ts[j + 1];
      }
      LastWriteWins(Upsert(rows, ts[0]), rest, i - 1);
    }
  }

  /** A batch that goes through keeps every row it does not conflict with. */
  lemma BulkKeepsOtherRows(rows: seq<SynergyRow>, ts: seq<SynergyRow>, dbError: bool, x: SynergyRow)
    requires x in rows
    requires forall j :: 0 <= j < |ts| ==> !SameKey(x, ts[j])
    ensures x in BulkUpsert(rows, ts, dbError)
  {
    if !(|ts| == 0 || dbError || PageRepeatsKey(ts)) {
      UntouchedRowSurvives(rows, ts, x);
    }
  }

  /** A batch that goes through stores each tuple not overwritten by a later one. */
  lemma BulkStoresLastWrites(rows: seq<SynergyRow>, ts: seq<SynergyRow>, i: nat)
    requires i < |ts| && !PageRepeatsKey(ts)
    requires forall j :: i < j < |ts| ==> !SameKey(ts[i], ts[j])
    ensures ts[i] in BulkUpsert(rows, ts, false)
  {
    LastWriteWins(rows, ts, i);
  }

  // ------------------------------------------------------------ the store

  /** A row of `edhrec_commander_stats`; `lastScraped` is the clock reading of the save. */
  datatype CommanderStats = CommanderStats(deckCount: Option<int>, deckPercentage: Option<real>, lastScraped: int)

  /** The three EDHREC tables the scraper writes. */
  class EdhrecStore {
    var commanderStats: map<int, CommanderStats>
    var commanderCardSynergy: seq<SynergyRow>
    var cardCardSynergy: seq<SynergyRow>

    ghost predicate Valid()
      reads this
    {
      UniqueKeys(commanderCardSynergy) && UniqueKeys(cardCardSynergy)
    }

    constructor ()
      ensures Valid() && commanderStats == map[] && commanderCardSynergy == [] && cardCardSynergy == []
    {
      commanderStats, commanderCardSynergy, cardCardSynergy := map[], [], [];
    }

    /**
     * `save_edhrec_commander_stats`: insert or overwrite the row of the
     * commander, stamped with `now`; a failure rolls back.
     */
    method SaveEdhrecCommanderStats(commanderCardId: int, deckCount: Option<int>, deckPercentage: Option<real>,
                                    now: int, dbError: bool)
      modifies this
      ensures commanderStats == if dbError then old(commanderStats)
                                else old(commanderStats)[commanderCardId := CommanderStats(deckCount, deckPercentage, now)]
      ensures commanderCardSynergy == old(commanderCardSynergy) && cardCardSynergy == old(cardCardSynergy)
    {
      if !dbError {
        commanderStats := commanderStats[commanderCardId := CommanderStats(deckCount, deckPercentage, now)];
      }
    }

    /** `save_commander_card_synergies`. */
    method SaveCommanderCardSynergies(commanderCardId: int, items: seq<RelatedCard>, cards: seq<CardRow>, dbError: bool)
      requires Valid()
      modifies this
      ensures Valid()
      ensures commanderCardSynergy ==
                BulkUpsert(old(commanderCardSynergy), SynergyRows(commanderCardId, items, cards), dbError)
      ensures commanderStats == old(commanderStats) && cardCardSynergy == old(cardCardSynergy)
    {
      if |items| == 0 {
        return;
      }
      var ts := CollectSynergyRows(commanderCardId, items, cards);
      if |ts| == 0 {
        return;
      }
      commanderCardSynergy := BulkUpsert(commanderCardSynergy, ts, dbError);
    }

    /** `save_card_card_synergies`: the same steps on the card-card table. */
    method SaveCardCardSynergies(primaryCardId: int, items: seq<RelatedCard>, cards: seq<CardRow>, dbError: bool)
      requires Valid()
      modifies this
      ensures Valid()
      ensures cardCardSynergy == BulkUpsert(old(cardCardSynergy), SynergyRows(primaryCardId, items, cards), dbError)
      ensures commanderStats == old(commanderStats) && commanderCardSynergy == old(commanderCardSynergy)
    {
      if |items| == 0 {
        return;
      }
      var ts := CollectSynergyRows(primaryCardId, items, cards);
      if |ts| == 0 {
        return;
      }
      cardCardSynergy := BulkUpsert(cardCardSynergy, ts, dbError);
    }
  }
}
