# MTG collection backend — a Dafny model

This project models the data-handling core of a Magic: the Gathering collection backend and its
scraper scripts, and proves properties of that model in Dafny. The model covers:

- **Bulk ingestion.** The script walks a Scryfall bulk dump in slices of 20 records and upserts every
  "Lightning Bolt" record into the card-definition table. It downloads missing small, normal and large
  images, and commits after every 200 processed records, with a final drain at the end.
- **Catalog and bookkeeping operations.** These are the operations of the API:
  - the read-through fetch of a card missing from the catalog;
  - the filtered, ordered and paged catalog query;
  - merge-or-insert of collection entries and deck entries, including the deck format-legality gate;
  - partial (`exclude_unset`) updates of entries and decks.
- **Record shapes and request schemas.** Keys, defaults, non-null columns and lower bounds on
  quantities.
- **EDHREC scraper helpers.** The card slug, the number and percentage extractors, the stub page
  parsers, the card-id lookup, and the filter-then-upsert of synergy rows with its commit or rollback.
- **cEDH tournament scraper.** Event-link de-duplication, event and deck title fallbacks, commander and
  card-row extraction from decklist tables, and find-or-create of tournaments when a deck is saved.
- **Meta endpoint.** Decks are grouped by commander and counted, the three largest groups are kept, and
  up to three example decks are listed per commander.

Network answers (bulk listing, dump, image downloads, upstream card records, scraped pages) are
parameters. A fetch is an oracle from URI to `Fetched(bytes)` or `FetchFailed`. HTML pages are given
as the texts and table rows a selector would return. Database outcomes (a failed commit, a database
error) are boolean parameters. Tables are sequences or maps held in the fields of a class
(`PopulateCards.Session`, `Crud.Database`, `DbManager.EdhrecStore`, `CedhScraper.MetaDb`). The methods
on those classes update the tables in place, and each method is proved against a specification
function on values.

Three behaviours of the code are worth knowing before reading the proofs:

- **Bulk path.** The code overwrites the URIs of an existing row but keeps its stored image payloads.
  A payload can therefore outlive its URI (`PopulateCards.RefreshCanOrphanPayload`).
- **Read-through path.** A failed download keeps the URI and stores no payload (`Crud.ReadThroughRow`).
  It does not clear the URI as the bulk path does.
- **Stub page parsers.** `parse_commander_list_page` always returns an empty list, and
  `parse_commander_page` always returns an empty page for the given name.

Files: `wrappers.dfy` (Option/Result), `text.dfy` (character classes, case folding, strip, replace,
de-duplication), `models.dfy`, `schemas.dfy`, `scryfall.dfy` (upstream payload shapes),
`populate_cards.dfy`, `crud.dfy`, `main_scraper.dfy`, `parsers.dfy`, `db_manager.dfy`,
`cedh_scraper.dfy`, `meta.dfy`.

Some functions define what a source operation computes, and the rows below state properties of them
rather than contracts of their own. They are:

- `PopulateCards.Step`, `PopulateCards.IngestAll`: the store after one record and after a sequence of
  records (scripts/populate_cards.py:37-148). `PopulateCards.Matched`: the "Lightning Bolt" filter
  (scripts/populate_cards.py:188-191). `PopulateCards.SliceCounts`: the matches per slice of 20
  (scripts/populate_cards.py:184-197). `PopulateCards.CounterRun`, `PopulateCards.TotalCommits`: the
  commit counter and the number of commits (scripts/populate_cards.py:206-222).
- `Crud.ILikeContains`, `Crud.PassesFilters`: the three ILIKE filters (app/crud.py:147-153).
  `Crud.SortByKey`: the ORDER BY (app/crud.py:156).
- `MainScraper.ScrapeTargets`: the names `scrape_cards` requests (scripts/main_scraper.py:109-121).
- `Parsers.RemoveChar`: `replace(',', '')` (scripts/parsers.py:36). `Parsers.FirstNumberFrom`: the
  `\d+` search (scripts/parsers.py:37). `Parsers.PercentAt`, `Parsers.FirstPercentFrom`: the match of
  the percentage pattern at a position and the leftmost match (scripts/parsers.py:29).
- `DbManager.FirstNamed`: the row `fetchone()` returns (scripts/db_manager.py:22-30).
  `DbManager.Conflicting`: the row an ON CONFLICT clause hits (scripts/db_manager.py:111-117).
- `CedhScraper.PrefixedLinks`: the event links (scripts/mtgtop8_cedh_scraper.py:21-24).
  `CedhScraper.CleanHead`: the title fallback (scripts/mtgtop8_cedh_scraper.py:47-51).
  `CedhScraper.Flatten`: the rows of every Stable table (scripts/mtgtop8_cedh_scraper.py:89).
  `CedhScraper.LabelCommander`, `CedhScraper.DeckCommander`: the commander and its fallback
  (scripts/mtgtop8_cedh_scraper.py:88-109). `CedhScraper.DeckCards`: the card rows
  (scripts/mtgtop8_cedh_scraper.py:111-118).
- `Meta.SortByCount`, `Meta.TopCommanders`: the ORDER BY and LIMIT of the grouping query
  (app/api/meta.py:12-20).

All these paths are under `mtg-collection-backend/`.

## Model

| member | source | states |
|---|---|---|
| PopulateCards.FirstOfType | mtg-collection-backend/scripts/populate_cards.py:32-35 | None exactly when no descriptor has the requested type; otherwise the download URI of the first descriptor of that type |
| PopulateCards.LatestBulkDataUri | mtg-collection-backend/scripts/populate_cards.py:27-35 | the first-match loop returns what `FirstOfType` specifies |
| PopulateCards.FetchSlot | mtg-collection-backend/scripts/populate_cards.py:96-142 | a size is left alone when it has a non-empty payload or no URI; otherwise (an empty payload included) a successful download stores the body, and a failed one clears both URI and payload; afterwards a non-empty URI always has a payload |
| PopulateCards.FetchMissingImage | mtg-collection-backend/scripts/populate_cards.py:96-110 | the per-size download step computes `FetchSlot` |
| PopulateCards.ProcessRecord | mtg-collection-backend/scripts/populate_cards.py:37-142 | a row results exactly when the record has a non-empty id and name; a new row takes the record's id, an existing row keeps its id; name, set, collector number, legalities, type line and all five URIs come from the record; each of the three downloadable sizes goes through `FetchSlot` |
| PopulateCards.IngestAllAppend | mtg-collection-backend/scripts/populate_cards.py:184-204 | processing two runs of records one after the other equals processing their concatenation |
| PopulateCards.IngestKeepsKeyed | mtg-collection-backend/scripts/populate_cards.py:48-90 | every row stays under its own Scryfall id |
| PopulateCards.IngestKeys | mtg-collection-backend/scripts/populate_cards.py:38-46 | rows are never deleted, and exactly the ids of records with id and name are added |
| PopulateCards.IngestKeepsData | mtg-collection-backend/scripts/populate_cards.py:96-142 | a stored payload is never re-downloaded or overwritten by any later record |
| PopulateCards.ProcessedSlotsConsistent | mtg-collection-backend/scripts/populate_cards.py:69-142 | after processing, a non-empty URI has a payload, and a new row has no payload without its URI |
| PopulateCards.RefreshCanOrphanPayload | mtg-collection-backend/scripts/populate_cards.py:62-66 | an existing row keeps its payload when the record drops that size's URI, so "payload implies URI" does not hold |
| PopulateCards.ProcessRecordTwice | mtg-collection-backend/scripts/populate_cards.py:37-142 | processing a record twice gives the row processing it once gave |
| PopulateCards.IngestElsewhere | mtg-collection-backend/scripts/populate_cards.py:48-66 | a row whose id no record mentions is unchanged |
| PopulateCards.IngestAt | mtg-collection-backend/scripts/populate_cards.py:48-146 | with distinct ids, a processed record's row is that record processed against the original row |
| PopulateCards.IngestTwiceIsOnce | mtg-collection-backend/scripts/populate_cards.py:184-204 | running the same dump twice leaves the store as running it once |
| PopulateCards.ProcessRecordAgain | mtg-collection-backend/scripts/populate_cards.py:37-142 | a second pass over a record with another fetcher keeps every field but the images, and keeps each size whose URI both fetchers answer alike |
| PopulateCards.RetryCanFillSlot | mtg-collection-backend/scripts/populate_cards.py:96-110 | a download that failed on the first pass and succeeds on the second restores the URI and stores the payload |
| PopulateCards.IngestAgain | mtg-collection-backend/scripts/populate_cards.py:184-204 | a second run with another fetcher keeps the same rows and all their fields but the images, and the whole store when both fetchers answer the dump's URIs alike |
| PopulateCards.MatchedIsFilter | mtg-collection-backend/scripts/populate_cards.py:188-191 | the processed records are exactly the dump's records named "Lightning Bolt" |
| PopulateCards.MatchedAppend | mtg-collection-backend/scripts/populate_cards.py:184-191 | filtering slice by slice equals filtering the whole dump |
| PopulateCards.SliceSplit | mtg-collection-backend/scripts/populate_cards.py:184-185 | the dump splits into a first slice of at most 20 records and the rest |
| PopulateCards.CounterInvariant | mtg-collection-backend/scripts/populate_cards.py:206-214 | after every slice the counter is below 200; committed records plus the counter equal all processed records; each threshold commit covers at least 200 records |
| PopulateCards.FinalDrain | mtg-collection-backend/scripts/populate_cards.py:219-222 | the final commit happens exactly when the counter is above 0 |
| PopulateCards.FullSlices | mtg-collection-backend/scripts/populate_cards.py:179-214 | with 20 matches in every slice, a commit happens every tenth slice |
| PopulateCards.ThousandRecordsFiveCommits | mtg-collection-backend/scripts/populate_cards.py:179-222 | 50 full slices give exactly 5 commits and no final drain |
| PopulateCards.Session.Commit | mtg-collection-backend/scripts/populate_cards.py:212 | a successful commit makes the session's rows the committed state and counts one commit; a failed one changes neither |
| PopulateCards.Session.Rollback | mtg-collection-backend/scripts/populate_cards.py:225 | uncommitted changes are dropped |
| PopulateCards.Session.CommitOrRollback | mtg-collection-backend/scripts/populate_cards.py:210-225 | a failed commit rolls the session back to the last committed state |
| PopulateCards.Session.ProcessCardData | mtg-collection-backend/scripts/populate_cards.py:37-148 | the session's rows become `Step` of the old rows, and the row is added exactly when it is new and ingestible |
| PopulateCards.Session.ProcessBatch | mtg-collection-backend/scripts/populate_cards.py:201-204 | one slice's records processed in order give `IngestAll` |
| PopulateCards.Session.IngestSlices | mtg-collection-backend/scripts/populate_cards.py:184-225 | when the loop completes, the rows hold every matched record, and the counter and commit count are those of `CounterRun`; otherwise the session is rolled back to a prefix of the matched records |
| PopulateCards.Session.IngestDump | mtg-collection-backend/scripts/populate_cards.py:184-225 | a completed run commits every matched record with `TotalCommits` commits; a rolled-back run keeps a committed prefix |
| PopulateCards.Session.MainPopulate | mtg-collection-backend/scripts/populate_cards.py:150-229 | no "all_cards" descriptor, or an empty download URI for it, means nothing changes; otherwise the dump is ingested as `IngestDump` states |
| Crud.Download | mtg-collection-backend/app/crud.py:21-31 | a payload exactly when the URI is non-empty and the download succeeds, and it is the downloaded body |
| Crud.ReadThroughRow | mtg-collection-backend/app/crud.py:41-71 | a row exactly when the upstream id and name are non-empty; id, fields and all five URIs from upstream; a payload for a downloadable size exactly when its URI is set and the download succeeds; URIs are kept on failure |
| Crud.ReadThroughPayloadHasUri | mtg-collection-backend/app/crud.py:66-71 | on this path a stored payload always comes with its URI and is what that URI served |
| Crud.FetchedKey | mtg-collection-backend/app/crud.py:36-92 | the fetch stores under the upstream id, and only when upstream answered, the record is complete and the id is not yet stored |
| Crud.ResolvedKey | mtg-collection-backend/app/crud.py:195-199 | a locally stored id is used as is; otherwise the outcome of the read-through fetch; none exactly when both fail |
| Crud.Filtered | mtg-collection-backend/app/crud.py:147-153 | keeps exactly the rows that pass every given filter |
| Crud.SortByKeyCorrect | mtg-collection-backend/app/crud.py:156 | the sort orders by (name, set_code, collector_number) with nulls last and is a permutation |
| Crud.Window | mtg-collection-backend/app/crud.py:156 | OFFSET/LIMIT: the length is right, and the elements are the input's from position `skip` on |
| Crud.GetCardDefinitions | mtg-collection-backend/app/crud.py:133-158 | a negative skip or limit is an error; otherwise at most `limit` rows, all from the table and passing the filters, in key order, and exactly the rows from position `skip` of the sorted matching rows |
| Crud.MergedCollectionEntry | mtg-collection-backend/app/crud.py:211-224 | given quantities are added, unset ones kept; given condition, language and notes overwrite; a null language fails NOT NULL |
| Crud.CreatedCollectionEntry | mtg-collection-backend/app/crud.py:225-232 | a new entry takes every request field with its defaults; a language given as null is stored as the column default "en" |
| Crud.UpdatedCollectionEntry | mtg-collection-backend/app/crud.py:243-248 | each set field overwrites and the rest stay; a null quantity or language fails; an empty update changes nothing |
| Crud.LegalityVerdict | mtg-collection-backend/app/crud.py:320-328 | accepted exactly when the deck has no format, or the card's legality for the lower-cased format is exactly "legal"; missing legalities give their own error |
| Crud.UpdatedDeckEntry | mtg-collection-backend/app/crud.py:368-371 | each set field overwrites and the rest stay; a null quantity fails; an empty update changes nothing |
| Crud.UpdatedDeck | mtg-collection-backend/app/crud.py:287-292 | each set field overwrites and the rest stay; a null name fails; an empty update changes nothing |
| Crud.Database.FetchAndStore | mtg-collection-backend/app/crud.py:12-92 | stores `ReadThroughRow` under `FetchedKey` when that is some, and changes nothing otherwise |
| Crud.Database.ResolveCard | mtg-collection-backend/app/crud.py:195-199 | returns `ResolvedKey`, and a returned key is stored |
| Crud.Database.FindCollectionEntry | mtg-collection-backend/app/crud.py:202-209 | the first entry of the (user, card) pair, or none if there is none |
| Crud.Database.AddCardToCollection | mtg-collection-backend/app/crud.py:193-238 | an unresolvable card is an error that changes nothing; an existing (user, card) entry is merged in place, and otherwise one entry is appended |
| Crud.Database.UpdateCollectionEntry | mtg-collection-backend/app/crud.py:239-254 | writes `UpdatedCollectionEntry` at the entry's position, or changes nothing on error |
| Crud.Database.UpdateDeck | mtg-collection-backend/app/crud.py:287-300 | writes `UpdatedDeck` for the deck, or changes nothing on error |
| Crud.Database.DeleteDeck | mtg-collection-backend/app/models.py:61 | removes the deck and exactly its entries |
| Crud.Database.FindDeckEntry | mtg-collection-backend/app/crud.py:331-338 | the first entry with that (deck, card, sideboard flag), or none |
| Crud.Database.AddCardToDeck | mtg-collection-backend/app/crud.py:307-357 | unresolvable or illegal cards are errors that change no entry; an existing (deck, card, sideboard) entry gets the quantity added and its commander flag overwritten; otherwise one entry is appended |
| Crud.Database.UpdateDeckEntry | mtg-collection-backend/app/crud.py:368-376 | writes `UpdatedDeckEntry` at the entry's position, or changes nothing on error |
| Models.NewUser | mtg-collection-backend/app/models.py:11-14 | a new user is active by default |
| Models.WithSlot | mtg-collection-backend/app/models.py:30-38 | each image size's URI and payload can be set without touching the other sizes or fields |
| Models.NewDeckEntry | mtg-collection-backend/app/models.py:69-71 | defaults: quantity 1, not commander, not sideboard |
| Models.WithoutDeck | mtg-collection-backend/app/models.py:61 | the entries left are exactly those of other decks |
| Models.NewCollectionEntry | mtg-collection-backend/app/models.py:83-87 | defaults: both quantities 0, language "en", no condition or notes |
| Schemas.ToCardDefinitionCreate | mtg-collection-backend/app/schemas.py:27-29 | accepted exactly when the Scryfall id and the name are present, and the other fields carry over |
| Schemas.CollectionCreateFields | mtg-collection-backend/app/schemas.py:46-54 | unset quantities become 0, an unset language "en", an unset condition or notes null; every given value (quantities, condition, language, notes) is kept; valid quantities are non-negative |
| Schemas.DefaultDeckEntryCreate | mtg-collection-backend/app/schemas.py:98-104 | a request naming only the card has quantity 1, is neither commander nor sideboard, and is valid |
| Schemas.ToDeckCreate | mtg-collection-backend/app/schemas.py:119-125 | accepted exactly when the name is present, which is kept; description and format are kept when given and default to null |
| MainScraper.KeepAllowed | mtg-collection-backend/scripts/main_scraper.py:23 | only word characters, whitespace and '-' remain |
| MainScraper.KeepAllowedOne | mtg-collection-backend/scripts/main_scraper.py:23 | one character is kept exactly when it is a word character, whitespace or '-' |
| MainScraper.KeepAllowedAppend | mtg-collection-backend/scripts/main_scraper.py:23 | the filter works character by character: the kept characters of a concatenation are those of each part, in order |
| MainScraper.SpacesToHyphen | mtg-collection-backend/scripts/main_scraper.py:24 | from slug characters and whitespace, only slug characters remain |
| MainScraper.SpacesToHyphenRun | mtg-collection-backend/scripts/main_scraper.py:24 | the characters before a maximal whitespace run are kept in order, and the whole run becomes one '-' |
| MainScraper.SpacesToHyphenNoSpace | mtg-collection-backend/scripts/main_scraper.py:24 | no whitespace remains |
| MainScraper.CollapseHyphens | mtg-collection-backend/scripts/main_scraper.py:25 | no "--" remains |
| MainScraper.CollapseHyphensRun | mtg-collection-backend/scripts/main_scraper.py:25 | the characters before a maximal run of hyphens are kept in order, and the run becomes one '-' |
| MainScraper.StripHyphens | mtg-collection-backend/scripts/main_scraper.py:26 | no leading or trailing '-' remains |
| MainScraper.StripHyphensRuns | mtg-collection-backend/scripts/main_scraper.py:26 | the outer runs of hyphens are removed and the middle is kept unchanged |
| MainScraper.Slugify | mtg-collection-backend/scripts/main_scraper.py:12-27 | a missing or empty name gives ""; every result is lower-case, word characters and '-' only, without "--" or outer hyphens |
| MainScraper.SlugifyIdempotent | mtg-collection-backend/scripts/main_scraper.py:21-26 | slugifying a slug returns it unchanged |
| MainScraper.TwoWordSlug | mtg-collection-backend/scripts/main_scraper.py:14-15 | two ASCII words joined by a space give both words lower-cased and joined by '-' (as "Sol Ring" gives "sol-ring") |
| MainScraper.SplitCardSlug | mtg-collection-backend/scripts/main_scraper.py:16-22 | "A // B" of two ASCII words gives "a-b" (as "Fire // Ice" gives "fire-ice") |
| MainScraper.ScrapeTargetsSound | mtg-collection-backend/scripts/main_scraper.py:109-121 | every requested card is one of the names, with its non-zero local id and its non-empty slug |
| MainScraper.ScrapeTargetsComplete | mtg-collection-backend/scripts/main_scraper.py:109-121 | every name with a non-zero local id and a non-empty slug is requested, with that id and slug |
| MainScraper.CardsToScrape | mtg-collection-backend/scripts/main_scraper.py:106-121 | the skip loop computes `ScrapeTargets` |
| Parsers.RemoveCharRemovesAll | mtg-collection-backend/scripts/parsers.py:36 | comma removal leaves no comma and drops exactly the commas |
| Parsers.RemoveCharKeepsDigits | mtg-collection-backend/scripts/parsers.py:36 | the text has a digit exactly when it still has one after the commas are removed |
| Parsers.ExtractNumber | mtg-collection-backend/scripts/parsers.py:32-37 | none for missing or empty text; none exactly when the text has no digit |
| Parsers.ExtractNumberReadsRun | mtg-collection-backend/scripts/parsers.py:36-37 | in text without commas, the value is the first maximal run of digits |
| Parsers.ExtractNumberThousands | mtg-collection-backend/scripts/parsers.py:36-37 | "a,bbb" reads as a × 1000 + bbb (as "1,234 decks" gives 1234) |
| Parsers.ExtractPercentage | mtg-collection-backend/scripts/parsers.py:25-30 | none for missing or empty text; otherwise the value at the leftmost match; never negative |
| Parsers.FirstPercentIs | mtg-collection-backend/scripts/parsers.py:29 | the match used is the leftmost position where digits[.digits]% starts |
| Parsers.NoPercentSign | mtg-collection-backend/scripts/parsers.py:29-30 | a text without '%' gives none |
| Parsers.PercentOfInteger | mtg-collection-backend/scripts/parsers.py:29-30 | digits d followed by '%' after a digit-free prefix give exactly d / 100 |
| Parsers.PercentOfDecimal | mtg-collection-backend/scripts/parsers.py:29-30 | a.b% after a digit-free prefix gives exactly a.b / 100 |
| Parsers.DigitsValueConcat | mtg-collection-backend/scripts/parsers.py:37 | the decimal value of concatenated digit strings |
| Parsers.ParseCommanderListPage | mtg-collection-backend/scripts/parsers.py:41-64 | always the empty list |
| Parsers.ParseCommanderPage | mtg-collection-backend/scripts/parsers.py:66-103 | always a page with the given name, no stats and no related cards |
| DbManager.CardIdByName | mtg-collection-backend/scripts/db_manager.py:22-30 | an id exactly when there is no error and some row has the name, and it is the id of the first such row |
| DbManager.ResolvedId | mtg-collection-backend/scripts/db_manager.py:90-96 | an item resolves exactly when it has a non-empty name and the lookup finds a non-zero id for it, and then to that id |
| DbManager.SynergyRows | mtg-collection-backend/scripts/db_manager.py:88-105 | at most one row per item, all with the owner's id |
| DbManager.SynergyRowsComplete | mtg-collection-backend/scripts/db_manager.py:88-105 | every item that resolves gives its row |
| DbManager.SynergyRowsSound | mtg-collection-backend/scripts/db_manager.py:88-105 | every row comes from an item that resolves, with its source list, inclusion and synergy |
| DbManager.SynergyRowsAppend | mtg-collection-backend/scripts/db_manager.py:88-105 | the rows keep the input order: the rows of two item lists one after the other are the rows of each, concatenated |
| DbManager.CollectSynergyRows | mtg-collection-backend/scripts/db_manager.py:88-105 | the filtering loop computes `SynergyRows` |
| DbManager.Upsert | mtg-collection-backend/scripts/db_manager.py:111-117 | with no conflicting row the new row is appended; otherwise the length is kept and the first conflicting row (with unique keys, every one) becomes the new row; rows with another key are unchanged, and key uniqueness is kept |
| DbManager.UpsertAll | mtg-collection-backend/scripts/db_manager.py:111-117 | key uniqueness is kept over a sequence of upserts |
| DbManager.BulkUpsert | mtg-collection-backend/scripts/db_manager.py:107-126 | no rows, a database error, or a key repeated within one statement page leaves the table unchanged; key uniqueness is kept |
| DbManager.UntouchedRowSurvives | mtg-collection-backend/scripts/db_manager.py:111-117 | a row whose key no new row has survives |
| DbManager.LastWriteWins | mtg-collection-backend/scripts/db_manager.py:111-117 | a new row with no later row of the same key ends up in the table |
| DbManager.BulkKeepsOtherRows | mtg-collection-backend/scripts/db_manager.py:107-126 | rows of other keys survive the bulk upsert, whatever its outcome |
| DbManager.BulkStoresLastWrites | mtg-collection-backend/scripts/db_manager.py:111-123 | without error or in-page repeat, every last write of a key is stored |
| DbManager.EdhrecStore.SaveEdhrecCommanderStats | mtg-collection-backend/scripts/db_manager.py:55-73 | upsert by card id of deck count, percentage and timestamp; unchanged on error; other tables untouched |
| DbManager.EdhrecStore.SaveCommanderCardSynergies | mtg-collection-backend/scripts/db_manager.py:76-126 | the synergy table becomes `BulkUpsert` of the filtered rows, keeping key uniqueness; other tables untouched |
| DbManager.EdhrecStore.SaveCardCardSynergies | mtg-collection-backend/scripts/db_manager.py:128-174 | the card-card table becomes `BulkUpsert` of the filtered rows, keeping key uniqueness; other tables untouched |
| CedhScraper.GetCedhEventLinks | mtg-collection-backend/scripts/mtgtop8_cedh_scraper.py:17-25 | no duplicates, and exactly the prefixed links of the hrefs |
| CedhScraper.EventName | mtg-collection-backend/scripts/mtgtop8_cedh_scraper.py:41-55 | none exactly when there is neither h1 nor title; h1 wins; a title name is stripped and has no '@'; a title without '@' is used whole after stripping |
| CedhScraper.EventNameFromTitle | mtg-collection-backend/scripts/mtgtop8_cedh_scraper.py:46-49 | with no h1, the name is the text before the first '@' with "cEDH event -" removed, stripped |
| CedhScraper.EventNameLeadingPattern | mtg-collection-backend/scripts/mtgtop8_cedh_scraper.py:46-49 | a title starting "cEDH event -" names the event by the rest of the text before the first '@', stripped |
| CedhScraper.EventNamePadded | mtg-collection-backend/scripts/mtgtop8_cedh_scraper.py:46-49 | a title "cEDH event - <name> @ ..." names the event <name> |
| CedhScraper.EventNameExample | mtg-collection-backend/scripts/mtgtop8_cedh_scraper.py:48-49 | the example title in the code's comment names the event "CEDH Tournament" |
| CedhScraper.ParseEvent | mtg-collection-backend/scripts/mtgtop8_cedh_scraper.py:37-68 | an event exactly when a name is found, with no date and de-duplicated deck links that are exactly the prefixed hrefs |
| CedhScraper.DeckName | mtg-collection-backend/scripts/mtgtop8_cedh_scraper.py:74-84 | none exactly when there is neither h1 nor title; h1 wins; a title name is stripped and has no '@' |
| CedhScraper.DeckNameFromTitle | mtg-collection-backend/scripts/mtgtop8_cedh_scraper.py:78-80 | with no h1, the name is the stripped title's text before the first '@' with "Decklist:" removed, stripped |
| CedhScraper.DeckNameWholeTitle | mtg-collection-backend/scripts/mtgtop8_cedh_scraper.py:78-80 | a stripped title without '@' is used whole, with "Decklist:" removed, stripped |
| CedhScraper.CommanderFromLabel | mtg-collection-backend/scripts/mtgtop8_cedh_scraper.py:93-98 | the extracted name has no ':' and no outer whitespace |
| CedhScraper.CommanderWholeLabel | mtg-collection-backend/scripts/mtgtop8_cedh_scraper.py:93-98 | a label without ':' is the name, stripped |
| CedhScraper.CommanderSecondField | mtg-collection-backend/scripts/mtgtop8_cedh_scraper.py:93-98 | a label with ':' gives its second ":"-separated field, stripped |
| CedhScraper.FirstCommanderRow | mtg-collection-backend/scripts/mtgtop8_cedh_scraper.py:89-92 | the first two-cell row whose label contains "commander", case-insensitively |
| CedhScraper.CommanderFromFirstRow | mtg-collection-backend/scripts/mtgtop8_cedh_scraper.py:88-100 | when such a row exists and its label yields a non-empty name, that name is the commander; an empty one falls through to the fallback |
| CedhScraper.CommanderEmptyLabel | mtg-collection-backend/scripts/mtgtop8_cedh_scraper.py:88-109 | when the first commander row's label yields "", the commander is the first row of the first table if it has two cells, and "" otherwise |
| CedhScraper.CommanderFallback | mtg-collection-backend/scripts/mtgtop8_cedh_scraper.py:101-109 | with no such row, the second cell of the first row of the first table, if it has two cells |
| CedhScraper.NoCommander | mtg-collection-backend/scripts/mtgtop8_cedh_scraper.py:101-109 | with neither, no commander |
| CedhScraper.DeckCardsComplete | mtg-collection-backend/scripts/mtgtop8_cedh_scraper.py:111-118 | every two-cell row with an all-digit count gives a card |
| CedhScraper.DeckCardsSound | mtg-collection-backend/scripts/mtgtop8_cedh_scraper.py:111-118 | every card comes from such a row, with that number as quantity |
| CedhScraper.FindCommander | mtg-collection-backend/scripts/mtgtop8_cedh_scraper.py:88-100 | the row loop with its early exit computes the label commander |
| CedhScraper.CollectCards | mtg-collection-backend/scripts/mtgtop8_cedh_scraper.py:111-118 | the row loop computes `DeckCards` |
| CedhScraper.ParseDeck | mtg-collection-backend/scripts/mtgtop8_cedh_scraper.py:70-125 | a deck exactly when a name is found, with its commander, its cards and no placement |
| CedhScraper.FindTournament | mtg-collection-backend/scripts/mtgtop8_cedh_scraper.py:130-134 | the first tournament with the same name and date, or none |
| CedhScraper.WithTournament | mtg-collection-backend/scripts/mtgtop8_cedh_scraper.py:130-141 | afterwards the (name, date) is found; the table is unchanged exactly when it was already there, and otherwise grows by one; uniqueness is kept |
| CedhScraper.WithTournamentIdempotent | mtg-collection-backend/scripts/mtgtop8_cedh_scraper.py:130-141 | saving the same event's tournament twice leaves the table as after once |
| CedhScraper.CardRows | mtg-collection-backend/scripts/mtgtop8_cedh_scraper.py:154-162 | one row per card, with its name and quantity; commander flag exactly when its name equals the commander |
| CedhScraper.BuildCardRows | mtg-collection-backend/scripts/mtgtop8_cedh_scraper.py:154-162 | the loop computes `CardRows` |
| CedhScraper.MetaDb.SaveDeckToDb | mtg-collection-backend/scripts/mtgtop8_cedh_scraper.py:127-162 | find-or-create of the tournament, one new deck referring to it, and its card rows appended |
| Meta.DecksOf | mtg-collection-backend/app/api/meta.py:14-18 | only decks with that commander |
| Meta.DecksOfComplete | mtg-collection-backend/app/api/meta.py:14-18 | every deck with that commander is counted |
| Meta.Groups | mtg-collection-backend/app/api/meta.py:12-18 | one group per non-null commander, no commander twice, each counting exactly its decks, at least one |
| Meta.SortByCountCorrect | mtg-collection-backend/app/api/meta.py:19 | ordered by non-increasing count, and a permutation of the groups |
| Meta.TopCommandersCounts | mtg-collection-backend/app/api/meta.py:12-22 | at most three commanders, by non-increasing count, each with exactly its number of decks |
| Meta.TopCommandersAreLargest | mtg-collection-backend/app/api/meta.py:12-22 | a commander left out means three were listed, each with at least its count |
| Meta.TopCommandersDistinct | mtg-collection-backend/app/api/meta.py:12-20 | no commander is listed twice |
| Meta.ExampleDecks | mtg-collection-backend/app/api/meta.py:26-31 | at most three decks, all with that commander |
| Meta.Entry | mtg-collection-backend/app/api/meta.py:33-42 | commander and count from the query; each deck summary has exactly id, name, placement and url of an example deck |
| Meta.GetTopCommanders | mtg-collection-backend/app/api/meta.py:9-44 | one entry per listed commander, in order, at most three |

## Left out

- PopulateCards.IngestTwiceIsOnce: it holds for one fetch oracle answering both runs alike. With a real network a download that failed in the first run can succeed in the second; `PopulateCards.IngestAgain` states what two runs share for any two fetchers, and `PopulateCards.RetryCanFillSlot` shows how they can differ.
- Concurrency: `asyncio.gather` over one slice is modelled as processing that slice's records one after the other against the shared session.
- HTTP and HTML: requests, timeouts, rate limiting and BeautifulSoup selection are not modelled. Pages are given as the h1/title texts, hrefs and table rows (lists of cell texts) the selectors return. Nested-table details of the cEDH decklist are not modelled.
- Floating point: percentages are exact reals (value / 100). Inclusion, synergy and salt values are opaque payloads.
- Clocks: the `now()` timestamps are parameters. The `date_updated` bookkeeping columns are not modelled.
- Unicode: case folding and `\d` are ASCII only. `str.isdigit` (scripts/mtgtop8_cedh_scraper.py:117) also accepts other Unicode digits: '٣' would be read as 3, and '²' passes `isdigit` and then makes `int` raise; `CedhScraper.IsCardRow` accepts ASCII digits only. `\w` counts ASCII letters, digits, '_' and every non-ASCII non-space character. String collation in ORDER BY is code-point order.
- Crud.GetCardDefinitions: rows that tie on (name, set_code, collector_number) have no specified order in PostgreSQL, so OFFSET/LIMIT can cut between them differently from run to run; the model orders ties by table order.
- Crud.ILikeContains: ILIKE matches ASCII case-insensitive substrings. Patterns containing `%`, `_` or a backslash (the default LIKE escape character) are outside the model (`Crud.PlainPattern`).
- Crud.Database.FetchAndStore: the flush failure on a duplicate id and every transport error fold into one "nothing stored" outcome. Error messages are not modelled.
- CedhScraper.MetaDb.SaveDeckToDb: exceptions and partial commits inside the save are not modelled. The save either completes or is not called.
- CedhScraper.ParseEvent: the event date is always null, as in the code. Date parsing is not modelled.
- DbManager.SynergyRows: the per-item id lookups never fail here. A failed lookup leaves the psycopg2 transaction aborted, so every later statement of the call fails and nothing is stored; the save methods take that outcome through their `dbError` parameter.
- Crud.Database.FindCollectionEntry: the query has no ORDER BY, so the database picks the row `.first()` returns. The model takes the first in table order; `(user, card)` is unique under `Crud.UniqueCollectionKeys`, so there is at most one.
- Crud.Database.FindDeckEntry: the query has no ORDER BY, so the database picks the row `.first()` returns. The model takes the first in table order.
- DbManager.CardIdByName: the query has no ORDER BY, so the database picks the row `fetchone()` returns when several cards share a name. The model takes the first in table order.
- CedhScraper.FindTournament: the query has no ORDER BY, so the database picks the row `fetchone()` returns. The model takes the first in table order; `CedhScraper.WithTournament` keeps (name, date) unique, so there is at most one.
- DbManager.BulkUpsert: the page split of `execute_values` (100 rows per statement) is modelled only through `PageRepeatsKey`, the in-page key repeat that makes PostgreSQL reject the statement. A NULL source list never conflicts.
- Meta.TopCommanders: ties between equal counts, and the choice of example decks without ORDER BY, are left to the database. The model breaks ties by first appearance and takes a commander's first decks in table order.
- MainScraper.ScrapeTargets: `list(set(names))` has an unspecified order. The model takes the names in the order given.
- `update_card_edhrec_stats`, `get_cedh_deck_links`, `parse_card_page`, `scrape_commanders`, `run_scraper` and the cEDH `main` are orchestration or unused stubs outside this model.
- The frontend, authentication (JWT, bcrypt), configuration, migrations and the FastAPI endpoint layer are not part of this model.
