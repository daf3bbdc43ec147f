/**
 * The bulk synchronisation script: find the bulk dump of the requested type,
 * walk it in slices of 20 records, upsert every record named exactly
 * "Lightning Bolt" into the card-definition store (downloading the small,
 * normal and large images that are still missing) and commit whenever 200
 * records have been processed since the last commit, with a final drain.
 *
 * The specification functions (`ProcessRecord`, `Step`, `IngestAll`,
 * `CounterRun`) describe the outcome; the `Session` class performs it step
 * by step, as the script does, and is proved to reach that outcome.
 */
module PopulateCards {
  import opened Wrappers
  import opened Models
  import opened Scryfall

  /** Records handed to one `asyncio.gather` (`concurrency_factor`). */
  const SliceSize := 20
  /** Processed records after which the session is committed (`commit_batch_size`). */
  const CommitThreshold := 200
  /** The only card name the script processes. */
  const TargetName := "Lightning Bolt"
  /** The bulk dump the script asks for. */
  const BulkType := "all_cards"

  // ------------------------------------------------- bulk-dump discovery

  /** The download URI of the first descriptor of the requested type. */
  function FirstOfType(items: seq<BulkDescriptor>, bulkType: string): (r: Option<string>)
    ensures r.None? <==> forall i :: 0 <= i < |items| ==> items[i].kind != bulkType
    ensures r.Some? ==> exists i :: 0 <= i < |items| && items[i].kind == bulkType &&
                          items[i].downloadUri == r.value &&
                          forall j :: 0 <= j < i ==> items[j].kind != bulkType
  {
    if items == [] then None
    else if items[0].kind == bulkType then Some(items[0].downloadUri)
    else
      var r := FirstOfType(items[1..], bulkType);
      assert forall i :: 1 <= i < |items| ==> items[i] == items[1..][i - 1];
      r
  }

  /** `get_latest_bulk_data_uri`: scan the listing and return at the first match. */
  method LatestBulkDataUri(items: seq<BulkDescriptor>, bulkType: string) returns (r: Option<string>)
    ensures r == FirstOfType(items, bulkType)
  {
    var i := 0;
    while i < |items|
      invariant 0 <= i <= |items|
      invariant FirstOfType(items[i..], bulkType) == FirstOfType(items, bulkType)
    {
      if items[i].kind == bulkType {
        return Some(items[i].downloadUri);
      }
      assert items[i..][1..] == items[i + 1..];
      i := i + 1;
    }
    return None;
  }

  // ------------------------------------------------ one record (specification)

  /** A record is processed only when it has a non-empty id and a non-empty name. */
  predicate Ingestible(rec: RawCard) { Truthy(rec.id) && Truthy(rec.name) }

  function Lookup(store: CardStore, id: string): Option<CardDefinition> {
    if id in store then Some(store[id]) else None
  }

  /**
   * One image size after the download step: a download is attempted only
   * when the URI is non-empty and the stored payload is empty; success stores
   * the body, failure clears both the URI and the payload.
   */
  function FetchSlot(slot: ImageSlot, fetch: Fetcher): (r: ImageSlot)
    ensures HasData(slot.data) ==> r == slot
    ensures !Truthy(slot.uri) ==> r == slot
    ensures Truthy(r.uri) ==> r.data.Some?
    ensures r.uri.Some? ==> r.uri == slot.uri
    ensures r.uri != slot.uri ==> r == ImageSlot(None, None) && fetch(slot.uri.value).FetchFailed?
    ensures r != slot ==> Truthy(slot.uri) && !HasData(slot.data)
    ensures r != slot && r.uri == slot.uri ==> r.data.Some? && fetch(slot.uri.value) == Fetched(r.data.value)
    ensures Truthy(slot.uri) && !HasData(slot.data) ==>
              match fetch(slot.uri.value)
              case Fetched(content) => r == ImageSlot(slot.uri, Some(content))
              case FetchFailed => r == ImageSlot(None, None)
  {
    if Truthy(slot.uri) && !HasData(slot.data) then
      match fetch(slot.uri.value)
      case Fetched(content) => ImageSlot(slot.uri, Some(content))
      case FetchFailed => ImageSlot(None, None)
    else slot
  }

  /** One image size of `process_card_data`: download the payload when the URI is set and no payload is stored. */
  method FetchMissingImage(slot: ImageSlot, fetch: Fetcher) returns (r: ImageSlot)
    ensures r == FetchSlot(slot, fetch)
  {
    r := slot;
    if Truthy(slot.uri) && !HasData(slot.data) {
      var response := fetch(slot.uri.value);
      if response.Fetched? {
        r := slot.(data := Some(response.content));
      } else {
        r := ImageSlot(None, None);
      }
    }
  }

  /**
   * `process_card_data` for one record, given the row already stored under
   * its id (if any): the scalar fields and all five URIs come from the
   * record (an absent key becomes null), the payloads of an existing row are
   * kept and a new row starts without payloads, then each of the three
   * downloadable sizes goes through `FetchSlot`.
   */
  function ProcessRecord(existing: Option<CardDefinition>, rec: RawCard, fetch: Fetcher): (r: Option<CardDefinition>)
    ensures r.Some? <==> Ingestible(rec)
    ensures r.Some? && existing.None? ==> r.value.scryfallId == rec.id.value
    ensures r.Some? && existing.Some? ==> r.value.scryfallId == existing.value.scryfallId
    ensures r.Some? ==> r.value.name == rec.name && r.value.setCode == rec.setCode &&
                        r.value.collectorNumber == rec.collectorNumber &&
                        r.value.legalities == rec.legalities && r.value.typeLine == rec.typeLine
    ensures r.Some? ==> r.value.artCropUri == rec.imageUris.artCrop && r.value.borderCropUri == rec.imageUris.borderCrop
    ensures r.Some? ==> forall sz :: (Slot(r.value, sz) ==
              FetchSlot(ImageSlot(UriFor(rec.imageUris, sz), if existing.Some? then Slot(existing.value, sz).data else None), fetch))
  {
    if !Ingestible(rec) then None
    else
      var u := rec.imageUris;
      var base := match existing
        case Some(c) =>
          c.(name := rec.name, setCode := rec.setCode, collectorNumber := rec.collectorNumber,
             legalities := rec.legalities, typeLine := rec.typeLine,
             small := c.small.(uri := u.small), normal := c.normal.(uri := u.normal),
             large := c.large.(uri := u.large), artCropUri := u.artCrop, borderCropUri := u.borderCrop)
        case None =>
          CardDefinition(rec.id.value, rec.name, rec.setCode, rec.collectorNumber, rec.typeLine, rec.legalities,
                         ImageSlot(u.small, None), ImageSlot(u.normal, None), ImageSlot(u.large, None),
                         u.artCrop, u.borderCrop);
      Some(base.(small := FetchSlot(base.small, fetch), normal := FetchSlot(base.normal, fetch),
                 large := FetchSlot(base.large, fetch)))
  }

  /** The store after one record: the processed row replaces or joins the rows, or nothing changes. */
  function Step(store: CardStore, rec: RawCard, fetch: Fetcher): CardStore {
    if Ingestible(rec) then store[rec.id.value := ProcessRecord(Lookup(store, rec.id.value), rec, fetch).value]
    else store
  }

  /** The store after a sequence of records processed in order. */
  function IngestAll(store: CardStore, recs: seq<RawCard>, fetch: Fetcher): CardStore {
    if recs == [] then store
    else Step(IngestAll(store, recs[..|recs| - 1], fetch), recs[|recs| - 1], fetch)
  }

  lemma IngestAllSnoc(store: CardStore, recs: seq<RawCard>, rec: RawCard, fetch: Fetcher)
    ensures IngestAll(store, recs + [rec], fetch) == Step(IngestAll(store, recs, fetch), rec, fetch)
  {
    assert (recs + [rec])[..|recs|] == recs;
  }

  /** Processing `a` then `b` is processing their concatenation. */
  lemma {:induction false} IngestAllAppend(store: CardStore, a: seq<RawCard>, b: seq<RawCard>, fetch: Fetcher)
    ensures IngestAll(store, a + b, fetch) == IngestAll(IngestAll(store, a, fetch), b, fetch)
  {
    if b == [] {
      assert a + b == a;
    } else {
      assert (a + b)[..|a + b| - 1] == a + b[..|b| - 1];
      IngestAllAppend(store, a, b[..|b| - 1], fetch);
    }
  }

  /** Ids of the records that get processed. */
  function IdsOf(recs: seq<RawCard>): set<string> {
    if recs == [] then {}
    else IdsOf(recs[..|recs| - 1]) + (if Ingestible(recs[|recs| - 1]) then {recs[|recs| - 1].id.value} else {})
  }

  /** No two processed records share an id (Scryfall ids are unique in a dump). */
  predicate DistinctIds(recs: seq<RawCard>) {
    forall i, j :: 0 <= i < j < |recs| && Ingestible(recs[i]) && Ingestible(recs[j]) ==> recs[i].id != recs[j].id
  }

  // ----------------------------------------- properties of the specification

  /** Each row stays under its own id: Scryfall ids keep identifying rows. */
  lemma {:induction false} IngestKeepsKeyed(store: CardStore, recs: seq<RawCard>, fetch: Fetcher)
    requires KeyedById(store)
    ensures KeyedById(IngestAll(store, recs, fetch))
  {
    if recs != [] {
      IngestKeepsKeyed(store, recs[..|recs| - 1], fetch);
    }
  }

  /** Rows are never deleted, and exactly the ids of processed records are added. */
  lemma {:induction false} IngestKeys(store: CardStore, recs: seq<RawCard>, fetch: Fetcher)
    ensures IngestAll(store, recs, fetch).Keys == store.Keys + IdsOf(recs)
  {
    if recs != [] {
      IngestKeys(store, recs[..|recs| - 1], fetch);
    }
  }

  /** A stored payload is never re-downloaded or overwritten, however many records follow. */
  lemma {:induction false} IngestKeepsData(store: CardStore, recs: seq<RawCard>, fetch: Fetcher, id: string, sz: Size)
    requires id in store && HasData(Slot(store[id], sz).data)
    ensures id in IngestAll(store, recs, fetch)
    ensures Slot(IngestAll(store, recs, fetch)[id], sz).data == Slot(store[id], sz).data
  {
    if recs != [] {
      IngestKeepsData(store, recs[..|recs| - 1], fetch, id, sz);
    }
  }

  /**
   * After processing, a size whose URI is non-empty always has a payload,
   * and a newly created row never holds a payload without a URI.
   */
  lemma ProcessedSlotsConsistent(existing: Option<CardDefinition>, rec: RawCard, fetch: Fetcher, sz: Size)
    requires Ingestible(rec)
    ensures Truthy(Slot(ProcessRecord(existing, rec, fetch).value, sz).uri) ==> Slot(ProcessRecord(existing, rec, fetch).value, sz).data.Some?
    ensures existing.None? && Slot(ProcessRecord(existing, rec, fetch).value, sz).data.Some? ==>
              Truthy(Slot(ProcessRecord(existing, rec, fetch).value, sz).uri)
  {
  }

  /**
   * An existing row keeps its payload even when the new record drops the URI
   * of that size, so a stored payload without a URI is reachable.
   */
  lemma RefreshCanOrphanPayload(c: CardDefinition, rec: RawCard, fetch: Fetcher, sz: Size)
    requires Ingestible(rec) && HasData(Slot(c, sz).data) && UriFor(rec.imageUris, sz).None?
    ensures Slot(ProcessRecord(Some(c), rec, fetch).value, sz) == ImageSlot(None, Slot(c, sz).data)
  {
  }

  /** Processing the same record twice gives the row that processing it once gave. */
  lemma ProcessRecordTwice(existing: Option<CardDefinition>, rec: RawCard, fetch: Fetcher)
    requires Ingestible(rec)
    ensures ProcessRecord(ProcessRecord(existing, rec, fetch), rec, fetch) == ProcessRecord(existing, rec, fetch)
  {
    var once := ProcessRecord(existing, rec, fetch).value;
    var twice := ProcessRecord(Some(once), rec, fetch).value;
    forall sz ensures Slot(twice, sz) == Slot(once, sz) {
      var uri := UriFor(rec.imageUris, sz);
      var before := ImageSlot(uri, if existing.Some? then Slot(existing.value, sz).data else None);
      assert Slot(once, sz) == FetchSlot(before, fetch);
      assert Slot(twice, sz) == FetchSlot(ImageSlot(uri, Slot(once, sz).data), fetch);
    }
    assert twice.small == once.small && twice.normal == once.normal && twice.large == once.large by {
      assert Slot(twice, Small) == Slot(once, Small);
      assert Slot(twice, Normal) == Slot(once, Normal);
      assert Slot(twice, Large) == Slot(once, Large);
    }
  }

  /** The row of an id no record mentions is untouched. */
  lemma {:induction false} IngestElsewhere(store: CardStore, recs: seq<RawCard>, fetch: Fetcher, id: string)
    requires id !in IdsOf(recs)
    ensures Lookup(IngestAll(store, recs, fetch), id) == Lookup(store, id)
  {
    if recs != [] {
      IngestElsewhere(store, recs[..|recs| - 1], fetch, id);
    }
  }

  lemma {:induction false} IdsOfMember(recs: seq<RawCard>, id: string)
    ensures id in IdsOf(recs) <==> exists i :: 0 <= i < |recs| && Ingestible(recs[i]) && recs[i].id.value == id
  {
    if recs != [] {
      var init := recs[..|recs| - 1];
      IdsOfMember(init, id);
      assert forall i :: 0 <= i < |init| ==> init[i] == recs[i];
    }
  }

  /** With distinct ids, the row of a processed record is that record processed against the original row. */
  lemma {:induction false} IngestAt(store: CardStore, recs: seq<RawCard>, fetch: Fetcher, i: nat)
    requires DistinctIds(recs) && i < |recs| && Ingestible(recs[i])
    ensures Lookup(IngestAll(store, recs, fetch), recs[i].id.value) ==
            ProcessRecord(Lookup(store, recs[i].id.value), recs[i], fetch)
  {
    var init := recs[..|recs| - 1];
    var id := recs[i].id.value;
    if i == |recs| - 1 {
      assert id !in IdsOf(init) by {
        IdsOfMember(init, id);
        forall j | 0 <= j < |init| && Ingestible(init[j])
          ensures init[j].id.value != id
        {
          assert init[j] == recs[j];
        }
      }
      IngestElsewhere(store, init, fetch, id);
    } else {
      assert DistinctIds(init) by {
        forall a, b | 0 <= a < b < |init| && Ingestible(init[a]) && Ingestible(init[b])
          ensures init[a].id != init[b].id
        {
          assert init[a] == recs[a] && init[b] == recs[b];
        }
      }
      assert init[i] == recs[i];
      IngestAt(store, init, fetch, i);
    }
  }

  /** Running the same dump twice leaves the store exactly as running it once did. */
  lemma IngestTwiceIsOnce(store: CardStore, recs: seq<RawCard>, fetch: Fetcher)
    requires DistinctIds(recs)
    ensures IngestAll(IngestAll(store, recs, fetch), recs, fetch) == IngestAll(store, recs, fetch)
  {
    var once := IngestAll(store, recs, fetch);
    var twice := IngestAll(once, recs, fetch);
    IngestKeys(store, recs, fetch);
    IngestKeys(once, recs, fetch);
    forall id | id in once
      ensures id in twice && twice[id] == once[id]
    {
      if id in IdsOf(recs) {
        IdsOfMember(recs, id);
        var i :| 0 <= i < |recs| && Ingestible(recs[i]) && recs[i].id.value == id;
        IngestAt(store, recs, fetch, i);
        IngestAt(once, recs, fetch, i);
        ProcessRecordTwice(Lookup(store, id), recs[i], fetch);
      } else {
        IngestElsewhere(once, recs, fetch, id);
      }
    }
  }

  /** A row with its three downloadable image sizes blanked: the fields a download never decides. */
  function WithoutImages(c: CardDefinition): CardDefinition {
    c.(small := ImageSlot(None, None), normal := ImageSlot(None, None), large := ImageSlot(None, None))
  }

  /** The two fetchers give the same answer for every downloadable URI a record carries. */
  predicate SameAnswers(recs: seq<RawCard>, f1: Fetcher, f2: Fetcher) {
    forall i, sz :: 0 <= i < |recs| && Truthy(UriFor(recs[i].imageUris, sz)) ==>
      f1(UriFor(recs[i].imageUris, sz).value) == f2(UriFor(recs[i].imageUris, sz).value)
  }

  /**
   * A second pass over a record with another fetcher: every field but the
   * images is that of the first pass, and a size whose URI both fetchers
   * answer alike ends as the first pass left it.
   */
  lemma ProcessRecordAgain(existing: Option<CardDefinition>, rec: RawCard, f1: Fetcher, f2: Fetcher)
    requires Ingestible(rec)
    ensures var once := ProcessRecord(existing, rec, f1).value;
            var twice := ProcessRecord(Some(once), rec, f2).value;
            WithoutImages(twice) == WithoutImages(once) &&
            forall sz :: (Truthy(UriFor(rec.imageUris, sz)) ==> f1(UriFor(rec.imageUris, sz).value) == f2(UriFor(rec.imageUris, sz).value)) ==>
              Slot(twice, sz) == Slot(once, sz)
  {
    var once := ProcessRecord(existing, rec, f1).value;
    var twice := ProcessRecord(Some(once), rec, f2).value;
    forall sz | Truthy(UriFor(rec.imageUris, sz)) ==> f1(UriFor(rec.imageUris, sz).value) == f2(UriFor(rec.imageUris, sz).value)
      ensures Slot(twice, sz) == Slot(once, sz)
    {
      var uri := UriFor(rec.imageUris, sz);
      var before := ImageSlot(uri, if existing.Some? then Slot(existing.value, sz).data else None);
      assert Slot(once, sz) == FetchSlot(before, f1);
      assert Slot(twice, sz) == FetchSlot(ImageSlot(uri, Slot(once, sz).data), f2);
    }
  }

  /**
   * The download that failed on the first pass may succeed on the second:
   * the first pass cleared the size, the second restores its URI from the
   * record and stores the payload, so the two passes differ.
   */
  lemma RetryCanFillSlot(rec: RawCard, f1: Fetcher, f2: Fetcher, sz: Size)
    requires Ingestible(rec) && Truthy(UriFor(rec.imageUris, sz))
    requires f1(UriFor(rec.imageUris, sz).value).FetchFailed? && f2(UriFor(rec.imageUris, sz).value).Fetched?
    ensures var once := ProcessRecord(None, rec, f1).value;
            Slot(once, sz) == ImageSlot(None, None) &&
            Slot(ProcessRecord(Some(once), rec, f2).value, sz) ==
              ImageSlot(UriFor(rec.imageUris, sz), Some(f2(UriFor(rec.imageUris, sz).value).content))
  {
    var once := ProcessRecord(None, rec, f1).value;
    assert Slot(once, sz) == FetchSlot(ImageSlot(UriFor(rec.imageUris, sz), None), f1);
    assert Slot(ProcessRecord(Some(once), rec, f2).value, sz) == FetchSlot(ImageSlot(UriFor(rec.imageUris, sz), None), f2);
  }

  /**
   * Running the dump again with another fetcher: the same rows, with the
   * same fields but the images; and the same store when the two fetchers
   * answer every downloadable URI of the dump alike.
   */
  lemma IngestAgain(store: CardStore, recs: seq<RawCard>, f1: Fetcher, f2: Fetcher)
    requires DistinctIds(recs)
    ensures IngestAll(IngestAll(store, recs, f1), recs, f2).Keys == IngestAll(store, recs, f1).Keys
    ensures forall id :: id in IngestAll(store, recs, f1) ==>
              WithoutImages(IngestAll(IngestAll(store, recs, f1), recs, f2)[id]) == WithoutImages(IngestAll(store, recs, f1)[id])
    ensures SameAnswers(recs, f1, f2) ==> IngestAll(IngestAll(store, recs, f1), recs, f2) == IngestAll(store, recs, f1)
  {
    var once := IngestAll(store, recs, f1);
    var twice := IngestAll(once, recs, f2);
    IngestKeys(store, recs, f1);
    IngestKeys(once, recs, f2);
    forall id | id in once
      ensures id in twice && WithoutImages(twice[id]) == WithoutImages(once[id])
      ensures SameAnswers(recs, f1, f2) ==> twice[id] == once[id]
    {
      if id in IdsOf(recs) {
        IdsOfMember(recs, id);
        var i :| 0 <= i < |recs| && Ingestible(recs[i]) && recs[i].id.value == id;
        IngestAt(store, recs, f1, i);
        IngestAt(once, recs, f2, i);
        ProcessRecordAgain(Lookup(store, id), recs[i], f1, f2);
        if SameAnswers(recs, f1, f2) {
          var a, b := once[id], twice[id];
          assert Slot(b, Small) == Slot(a, Small);
          assert Slot(b, Normal) == Slot(a, Normal);
          assert Slot(b, Large) == Slot(a, Large);
        }
      } else {
        IngestElsewhere(once, recs, f2, id);
      }
    }
    if SameAnswers(recs, f1, f2) {
      assert twice == once;
    }
  }

  // -------------------------------------------------- slices and the filter

  predicate IsTarget(rec: RawCard) { rec.name == Some(TargetName) }

  /** The records of `dump` named exactly "Lightning Bolt", in dump order. */
  function Matched(dump: seq<RawCard>): seq<RawCard>
  {
    if dump == [] then []
    else if IsTarget(dump[0]) then [dump[0]] + Matched(dump[1..])
    else Matched(dump[1..])
  }

  /** The filter keeps exactly the "Lightning Bolt" records of the dump. */
  lemma {:induction false} MatchedIsFilter(dump: seq<RawCard>)
    ensures forall r :: r in Matched(dump) <==> r in dump && IsTarget(r)
  {
    if dump != [] {
      MatchedIsFilter(dump[1..]);
      assert dump == [dump[0]] + dump[1..];
    }
  }

  lemma {:induction false} MatchedAppend(a: seq<RawCard>, b: seq<RawCard>)
    ensures Matched(a + b) == Matched(a) + Matched(b)
  {
    if a == [] {
      assert a + b == b;
    } else {
      assert (a + b)[0] == a[0];
      assert (a + b)[1..] == a[1..] + b;
      MatchedAppend(a[1..], b);
    }
  }

  function Min(a: int, b: int): int { if a < b then a else b }

  /** Number of matching records in each consecutive slice of 20 (the last may be shorter). */
  function SliceCounts(dump: seq<RawCard>): seq<nat>
    decreases |dump|
  {
    if dump == [] then []
    else
      var n := Min(SliceSize, |dump|);
      [|Matched(dump[..n])|] + SliceCounts(dump[n..])
  }

  /** Splitting a dump at the end of its first slice. */
  lemma SliceSplit(rest: seq<RawCard>)
    requires rest != []
    ensures SliceCounts(rest) == [|Matched(rest[..Min(SliceSize, |rest|)])|] + SliceCounts(rest[Min(SliceSize, |rest|)..])
    ensures Matched(rest) == Matched(rest[..Min(SliceSize, |rest|)]) + Matched(rest[Min(SliceSize, |rest|)..])
  {
    var n := Min(SliceSize, |rest|);
    assert rest == rest[..n] + rest[n..];
    MatchedAppend(rest[..n], rest[n..]);
  }

  /** The slice bookkeeping of one turn of the ingestion loop. */
  lemma Advance(dump: seq<RawCard>, i: nat, counts: seq<nat>, done: seq<RawCard>)
    requires i < |dump|
    requires SliceCounts(dump) == counts + SliceCounts(dump[i..])
    requires Matched(dump) == done + Matched(dump[i..])
    ensures SliceCounts(dump) == (counts + [|Matched(dump[i..Min(i + SliceSize, |dump|)])|]) +
                                 SliceCounts(dump[Min(i + SliceSize, |dump|)..])
    ensures Matched(dump) == (done + Matched(dump[i..Min(i + SliceSize, |dump|)])) +
                             Matched(dump[Min(i + SliceSize, |dump|)..])
  {
    var end := Min(i + SliceSize, |dump|);
    SliceSplit(dump[i..]);
    assert dump[i..][..Min(SliceSize, |dump[i..]|)] == dump[i..end];
    assert dump[i..][Min(SliceSize, |dump[i..]|)..] == dump[end..];
  }

  // ------------------------------------------------------ the commit counter

  /** Successful commits, records they covered, and the running counter. */
  datatype Counter = Counter(commits: nat, committedRecords: nat, pending: nat)

  /**
   * The counter after a sequence of per-slice match counts: a slice with no
   * match is skipped; otherwise its count is added and, once the counter
   * reaches 200, a commit happens and the counter restarts at 0.
   */
  function CounterRun(counts: seq<nat>): Counter {
    if counts == [] then Counter(0, 0, 0)
    else
      var c := CounterRun(counts[..|counts| - 1]);
      var n := counts[|counts| - 1];
      if n == 0 then c
      else if c.pending + n >= CommitThreshold then Counter(c.commits + 1, c.committedRecords + c.pending + n, 0)
      else c.(pending := c.pending + n)
  }

  /** Commits of a whole run: those at the threshold plus the final drain when records remain. */
  function TotalCommits(counts: seq<nat>): nat {
    CounterRun(counts).commits + (if CounterRun(counts).pending > 0 then 1 else 0)
  }

  lemma CounterSnoc(counts: seq<nat>, n: nat)
    ensures CounterRun(counts + [n]) ==
      var c := CounterRun(counts);
      if n == 0 then c
      else if c.pending + n >= CommitThreshold then Counter(c.commits + 1, c.committedRecords + c.pending + n, 0)
      else c.(pending := c.pending + n)
  {
    assert (counts + [n])[..|counts|] == counts;
  }

  function Sum(counts: seq<nat>): nat {
    if counts == [] then 0 else Sum(counts[..|counts| - 1]) + counts[|counts| - 1]
  }

  /**
   * After every slice the counter is below 200; every processed record is
   * either covered by a commit or still counted; each threshold commit
   * covers at least 200 records.
   */
  lemma {:induction false} CounterInvariant(counts: seq<nat>)
    ensures CounterRun(counts).pending < CommitThreshold
    ensures CounterRun(counts).committedRecords + CounterRun(counts).pending == Sum(counts)
    ensures CounterRun(counts).committedRecords >= CommitThreshold * CounterRun(counts).commits
  {
    if counts != [] {
      CounterInvariant(counts[..|counts| - 1]);
    }
  }

  /** A final commit happens exactly when records were processed after the last threshold commit. */
  lemma FinalDrain(counts: seq<nat>)
    ensures TotalCommits(counts) == CounterRun(counts).commits + 1 <==> CounterRun(counts).pending > 0
  {
  }

  /** When every slice is made of 20 matches, a commit happens every tenth slice. */
  lemma {:induction false} FullSlices(n: nat)
    ensures CounterRun(seq(n, _ => 20)) == Counter(n / 10, 200 * (n / 10), 20 * (n % 10))
  {
    if n > 0 {
      var s := seq(n, _ => 20);
      assert s[..n - 1] == seq(n - 1, _ => 20);
      FullSlices(n - 1);
    }
  }

  /** 1000 matching records in 50 full slices give exactly 5 commits and no final drain. */
  lemma ThousandRecordsFiveCommits()
    ensures TotalCommits(seq(50, _ => 20)) == 5
  {
    FullSlices(50);
  }

  // ------------------------------------------------------------- the session

  datatype RunOutcome = NoBulkData | Completed | RolledBack

  /**
   * The database session of one run: `rows` is the store as the session
   * sees it (pending changes included), `committed` the store as of the last
   * successful commit, `commits` the number of successful commits.
   */
  class Session {
    var rows: CardStore
    var committed: CardStore
    var commits: nat

    ghost predicate Valid()
      reads this
    {
      KeyedById(rows) && KeyedById(committed)
    }

    constructor (store: CardStore)
      requires KeyedById(store)
      ensures Valid() && rows == store && committed == store && commits == 0
    {
      rows, committed, commits := store, store, 0;
    }

    /** `session.commit()`, whose success is given by `ok`. */
    method Commit(ok: bool) returns (success: bool)
      requires Valid()
      modifies this`committed, this`commits
      ensures Valid() && success == ok
      ensures ok ==> committed == rows && commits == old(commits) + 1
      ensures !ok ==> committed == old(committed) && commits == old(commits)
    {
      success := ok;
      if ok {
        committed := rows;
        commits := commits + 1;
      }
    }

    /** `session.rollback()`: uncommitted changes are dropped. */
    method Rollback()
      requires Valid()
      modifies this`rows
      ensures Valid() && rows == committed
    {
      rows := committed;
    }

    /**
     * A commit inside the script's `try`: if it fails, the `except` handler
     * rolls the session back (and the run ends).
     */
    method CommitOrRollback(ok: bool) returns (success: bool)
      requires Valid()
      modifies this`rows, this`committed, this`commits
      ensures Valid() && success == ok
      ensures ok ==> rows == old(rows) && committed == old(rows) && commits == old(commits) + 1
      ensures !ok ==> rows == old(committed) && committed == old(committed) && commits == old(commits)
    {
      success := Commit(ok);
      if !success {
        Rollback();
      }
    }

    /**
     * `process_card_data`: skip a record without id or name; otherwise update
     * the existing row or build a new one, try the three downloads, and add a
     * new row to the session once, after the downloads. `added` tells
     * whether the row was added (an existing row never is).
     */
    method ProcessCardData(rec: RawCard, fetch: Fetcher) returns (added: bool)
      requires Valid()
      modifies this`rows
      ensures Valid()
      ensures rows == Step(old(rows), rec, fetch)
      ensures added <==> Ingestible(rec) && rec.id.value !in old(rows)
    {
      added := false;
      if !Truthy(rec.id) {
        return;
      }
      var id := rec.id.value;
      if !Truthy(rec.name) {
        return;
      }
      var uris := rec.imageUris;
      var isNew := id !in rows;
      var card: CardDefinition;
      if !isNew {
        card := rows[id];
        card := card.(name := rec.name);
        card := card.(setCode := rec.setCode);
        card := card.(collectorNumber := rec.collectorNumber);
        card := card.(legalities := rec.legalities);
        card := card.(typeLine := rec.typeLine);
        card := card.(small := card.small.(uri := uris.small));
        card := card.(normal := card.normal.(uri := uris.normal));
        card := card.(large := card.large.(uri := uris.large));
        card := card.(artCropUri := uris.artCrop);
        card := card.(borderCropUri := uris.borderCrop);
      } else {
        card := CardDefinition(id, rec.name, rec.setCode, rec.collectorNumber, rec.typeLine, rec.legalities,
                               ImageSlot(uris.small, None), ImageSlot(uris.normal, None), ImageSlot(uris.large, None),
                               uris.artCrop, uris.borderCrop);
      }

      var small := FetchMissingImage(card.small, fetch);
      var normal := FetchMissingImage(card.normal, fetch);
      var large := FetchMissingImage(card.large, fetch);
      card := card.(small := small, normal := normal, large := large);

      // An existing row is the object the session already tracks, so its
      // updates are visible in place; a new row joins the session here.
      rows := rows[id := card];
      added := isNew;
    }

    /** One slice's matching records, processed one after the other. */
    method ProcessBatch(bolts: seq<RawCard>, fetch: Fetcher)
      requires Valid()
      modifies this`rows
      ensures Valid() && rows == IngestAll(old(rows), bolts, fetch)
    {
      var k := 0;
      while k < |bolts|
        invariant 0 <= k <= |bolts|
        invariant Valid()
        invariant rows == IngestAll(old(rows), bolts[..k], fetch)
      {
        var _ := ProcessCardData(bolts[k], fetch);
        IngestAllSnoc(old(rows), bolts[..k], bolts[k], fetch);
        assert bolts[..k + 1] == bolts[..k] + [bolts[k]];
        k := k + 1;
      }
      assert bolts[..k] == bolts;
    }

    /**
     * The slice loop of `main_populate`: process the matching records of each
     * slice and commit whenever the counter reaches 200. `completed` is false
     * when a commit failed and the session was rolled back; `saved` counts
     * the matching records covered by the last successful commit.
     */
    method IngestSlices(dump: seq<RawCard>, fetch: Fetcher, commitOk: nat -> bool)
      returns (completed: bool, pending: nat, ghost saved: seq<RawCard>)
      requires Valid() && rows == committed
      modifies this
      ensures Valid() && |saved| <= |Matched(dump)| && saved == Matched(dump)[..|saved|]
      ensures committed == IngestAll(old(rows), saved, fetch)
      ensures !completed ==> rows == committed
      ensures completed ==> rows == IngestAll(old(rows), Matched(dump), fetch)
      ensures completed ==> pending == CounterRun(SliceCounts(dump)).pending
      ensures completed ==> commits == old(commits) + CounterRun(SliceCounts(dump)).commits
      ensures completed && pending == 0 ==> saved == Matched(dump)
    {
      ghost var start := rows;
      ghost var counts: seq<nat> := [];
      ghost var done: seq<RawCard> := [];
      saved := [];
      pending := 0;
      var i := 0;
      while i < |dump|
        invariant 0 <= i <= |dump|
        invariant Valid()
        invariant SliceCounts(dump) == counts + SliceCounts(dump[i..])
        invariant Matched(dump) == done + Matched(dump[i..])
        invariant rows == IngestAll(start, done, fetch)
        invariant committed == IngestAll(start, saved, fetch)
        invariant |saved| <= |done| && saved == done[..|saved|]
        invariant pending == CounterRun(counts).pending && pending < CommitThreshold
        invariant pending == 0 ==> saved == done
        invariant commits == old(commits) + CounterRun(counts).commits
      {
        var end := Min(i + SliceSize, |dump|);
        Advance(dump, i, counts, done);
        var bolts := Matched(dump[i..end]);
        CounterSnoc(counts, |bolts|);
        IngestAllAppend(start, done, bolts, fetch);
        assert (done + bolts)[..|saved|] == saved;
        if bolts == [] {
          assert done + bolts == done;
        }
        counts := counts + [|bolts|];
        done := done + bolts;
        i := end;
        if bolts != [] {
          ProcessBatch(bolts, fetch);
          pending := pending + |bolts|;
          if pending >= CommitThreshold {
            var ok := CommitOrRollback(commitOk(commits));
            if !ok {
              assert Matched(dump)[..|saved|] == saved;
              return false, pending, saved;
            }
            assert done[..|done|] == done;
            saved := done;
            pending := 0;
          }
        }
      }
      assert dump[i..] == [];
      assert Matched(dump) == done;
      assert SliceCounts(dump) == counts;
      completed := true;
    }

    /** The slice loop followed by the final commit of whatever is still pending. */
    method IngestDump(dump: seq<RawCard>, fetch: Fetcher, commitOk: nat -> bool) returns (outcome: RunOutcome)
      requires Valid() && rows == committed
      modifies this
      ensures Valid() && outcome != NoBulkData
      ensures outcome == Completed ==> rows == committed && committed == IngestAll(old(rows), Matched(dump), fetch)
      ensures outcome == Completed ==> commits == old(commits) + TotalCommits(SliceCounts(dump))
      ensures outcome == RolledBack ==> rows == committed
      ensures outcome == RolledBack ==> exists k :: (0 <= k <= |Matched(dump)| &&
                committed == IngestAll(old(rows), Matched(dump)[..k], fetch))
    {
      var completed, pending, saved := IngestSlices(dump, fetch, commitOk);
      if !completed {
        return RolledBack;
      }
      assert Matched(dump)[..|saved|] == saved;
      if pending > 0 {
        var ok := CommitOrRollback(commitOk(commits));
        if !ok {
          return RolledBack;
        }
      } else {
        assert Matched(dump)[..|saved|] == Matched(dump);
      }
      return Completed;
    }

    /**
     * `main_populate`: resolve the "all_cards" dump (stop if the listing has
     * none, or its download URI is empty), download it with `download`, and ingest it; a failed commit
     * rolls the session back and ends the run.
     */
    method MainPopulate(descriptors: seq<BulkDescriptor>, download: string -> seq<RawCard>,
                        fetch: Fetcher, commitOk: nat -> bool) returns (outcome: RunOutcome)
      requires Valid() && rows == committed
      modifies this
      ensures Valid()
      ensures outcome == NoBulkData <==> !Truthy(FirstOfType(descriptors, BulkType))
      ensures outcome == NoBulkData ==> rows == old(rows) && committed == old(committed) && commits == old(commits)
      ensures outcome == Completed ==>
                var dump := download(FirstOfType(descriptors, BulkType).value);
                rows == committed && committed == IngestAll(old(rows), Matched(dump), fetch) &&
                commits == old(commits) + TotalCommits(SliceCounts(dump))
      ensures outcome == RolledBack ==>
                var dump := download(FirstOfType(descriptors, BulkType).value);
                rows == committed &&
                exists k :: 0 <= k <= |Matched(dump)| && committed == IngestAll(old(rows), Matched(dump)[..k], fetch)
    {
      var uri := LatestBulkDataUri(descriptors, BulkType);
      if !Truthy(uri) {
        return NoBulkData;
      }
      var dump := download(uri.value);
      outcome := IngestDump(dump, fetch, commitOk);
    }
  }
}
