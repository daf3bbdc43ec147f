/**
 * The MTGTop8 cEDH scraper, from the point where the page has been fetched
 * and its elements selected: a page is given as the text of its `h1` (after
 * `get_text(strip=True)`), the text of its `title`, the `href`s of the
 * selected links, and its `Stable` tables as rows of cell texts. The
 * saving step appends to the three meta tables; ids are handed out in
 * insertion order starting at 1.
 */
module CedhScraper {
  import opened Wrappers
  import opened Text
  import opened Models

  type Row = seq<string>

  const BaseUrl: string := "https://www.mtgtop8.com"

  /** `BASE_URL + "/" + a['href']`. */
  function Link(href: string): string {
    BaseUrl + "/" + href
  }

  // ------------------------------------------------------- string helpers

  lemma AbsentFromSlice(s: string, a: nat, b: nat, c: char)
    requires a <= b <= |s| && c !in s
    ensures c !in s[a..b]
  {
    forall j | 0 <= j < b - a ensures s[a..b][j] != c {
      assert s[a..b][j] == s[a + j];
    }
  }

  /** Stripping cannot bring in a character. */
  lemma StripKeepsAbsent(s: string, c: char)
    requires c !in s
    ensures c !in Strip(s)
  {
    var l := TrimLeft(s);
    AbsentFromSlice(s, |s| - |l|, |s|, c);
    AbsentFromSlice(l, 0, |TrimRight(l)|, c);
  }

  /** Replacing by the empty string cannot bring in a character. */
  lemma {:induction false} RemoveAllKeepsAbsent(s: string, pat: string, c: char)
    requires |pat| > 0 && c !in s
    ensures c !in ReplaceAll(s, pat, "")
    decreases |s|
  {
    if |s| < |pat| {
    } else if s[..|pat|] == pat {
      AbsentFromSlice(s, |pat|, |s|, c);
      RemoveAllKeepsAbsent(s[|pat|..], pat, c);
      assert "" + ReplaceAll(s[|pat|..], pat, "") == ReplaceAll(s[|pat|..], pat, "");
    } else {
      AbsentFromSlice(s, 1, |s|, c);
      RemoveAllKeepsAbsent(s[1..], pat, c);
    }
  }

  /** `s.split(c)[0].replace(pat, "").strip()`: no `c`, no outer whitespace. */
  function CleanHead(s: string, c: char, pat: string): (r: string)
    requires |pat| > 0
    ensures c !in r && NoOuterSpace(r)
  {
    var head := BeforeFirst(s, c);
    RemoveAllKeepsAbsent(head, pat, c);
    StripKeepsAbsent(ReplaceAll(head, pat, ""), c);
    Strip(ReplaceAll(head, pat, ""))
  }

  /** The text before the first `c` is what precedes the first `c` written out. */
  lemma {:induction false} BeforeFirstSplit(h: string, c: char, t: string)
    requires c !in h
    ensures BeforeFirst(h + [c] + t, c) == h
  {
    if h != [] {
      assert (h + [c] + t)[1..] == h[1..] + [c] + t;
      BeforeFirstSplit(h[1..], c, t);
    }
  }

  /** The text between the first and second `c`, with the rest `t` starting at the second `c` or empty. */
  lemma SecondFieldSplit(a: string, c: char, b: string, t: string)
    requires c !in a && c !in b && (t == [] || t[0] == c)
    ensures SecondField(a + [c] + b + t, c) == b
  {
    var s := a + [c] + b + t;
    BeforeFirstSplit(a, c, b + t);
    assert s == a + [c] + (b + t);
    assert s[|a| + 1..] == b + t;
    if t == [] {
      BeforeFirstNone(b, c);
      assert b + t == b;
    } else {
      assert b + t == b + [c] + t[1..];
      BeforeFirstSplit(b, c, t[1..]);
    }
  }

  lemma {:induction false} BeforeFirstNone(s: string, c: char)
    requires c !in s
    ensures BeforeFirst(s, c) == s
  {
    if s != [] {
      BeforeFirstNone(s[1..], c);
    }
  }

  // ---------------------------------------------------------------- links

  /** The loops that turn the selected `href`s into absolute links. */
  method PrefixedLinks(hrefs: seq<string>) returns (links: seq<string>)
    ensures |links| == |hrefs|
    ensures forall k :: 0 <= k < |hrefs| ==> links[k] == Link(hrefs[k])
  {
    links := [];
    var i := 0;
    while i < |hrefs|
      invariant 0 <= i <= |hrefs| && |links| == i
      invariant forall k :: 0 <= k < i ==> links[k] == Link(hrefs[k])
    {
      links := links + [Link(hrefs[i])];
      i := i + 1;
    }
  }

  /**
   * `get_cedh_event_links`: one absolute link per distinct selected
   * `href`, without duplicates.
   */
  method GetCedhEventLinks(hrefs: seq<string>) returns (links: seq<string>)
    ensures NoDuplicates(links)
    ensures forall x :: x in links <==> exists k :: 0 <= k < |hrefs| && x == Link(hrefs[k])
  {
    var all := PrefixedLinks(hrefs);
    links := Dedup(all);
    forall x | x in links ensures exists k :: 0 <= k < |hrefs| && x == Link(hrefs[k]) {
      var k :| 0 <= k < |all| && all[k] == x;
    }
    forall x | exists k :: 0 <= k < |hrefs| && x == Link(hrefs[k]) ensures x in links {
      var k :| 0 <= k < |hrefs| && x == Link(hrefs[k]);
      assert all[k] == x;
    }
  }

  // ---------------------------------------------------------------- event

  datatype EventData = EventData(name: string, date: Option<Date>, url: string, deckLinks: seq<string>)

  /**
   * The event name of `parse_event`: the `h1` text; failing that the title
   * before its first '@' with "cEDH event -" removed and stripped, or the
   * whole stripped title when it has no '@'; nothing without either.
   */
  function EventName(h1: Option<string>, title: Option<string>): (r: Option<string>)
    ensures r.None? <==> h1.None? && title.None?
    ensures h1.Some? ==> r == h1
    ensures h1.None? && title.Some? ==> NoOuterSpace(r.value)
    ensures h1.None? && title.Some? && '@' in title.value ==> '@' !in r.value
    ensures h1.None? && title.Some? && '@' !in title.value ==> r.value == Strip(title.value)
  {
    if h1.Some? then h1
    else if title.Some? && '@' in title.value then Some(CleanHead(title.value, '@', "cEDH event -"))
    else if title.Some? then Some(Strip(title.value))
    else None
  }

  /**
   * A title with an '@' names the event by the text before its first '@',
   * with "cEDH event -" removed, then stripped.
   */
  lemma EventNameFromTitle(h: string, t: string)
    requires '@' !in h
    ensures EventName(None, Some(h + "@" + t)) == Some(Strip(ReplaceAll(h, "cEDH event -", "")))
  {
    BeforeFirstSplit(h, '@', t);
  }

  /** Without the first character of `pat`, nothing is replaced. */
  lemma {:induction false} ReplaceAllMissing(x: string, pat: string)
    requires |pat| > 0 && pat[0] !in x
    ensures ReplaceAll(x, pat, "") == x
    decreases |x|
  {
    if |x| >= |pat| {
      assert x[..|pat|] != pat by { assert x[0] != pat[0]; }
      ReplaceAllMissing(x[1..], pat);
      assert x == [x[0]] + x[1..];
    }
  }

  /** The pattern at the front is removed, and nothing after it. */
  lemma ReplaceAllLeading(pat: string, x: string)
    requires |pat| > 0 && pat[0] !in x
    ensures ReplaceAll(pat + x, pat, "") == x
  {
    assert (pat + x)[..|pat|] == pat;
    assert (pat + x)[|pat|..] == x;
    ReplaceAllMissing(x, pat);
  }

  /** One space on either side of a word is stripped. */
  lemma StripPadded(m: string)
    requires |m| > 0 && !IsSpace(m[0]) && !IsSpace(m[|m| - 1])
    ensures Strip(" " + m + " ") == m
  {
    var x := " " + m + " ";
    assert x[1..] == m + " ";
    assert TrimLeft(m + " ") == m + " ";
    assert (m + " ")[..|m|] == m;
  }

  /** A title that starts with the removed prefix names the event by the rest of its head. */
  lemma EventNameLeadingPattern(x: string, t: string)
    requires '@' !in x && 'c' !in x
    ensures EventName(None, Some("cEDH event -" + x + "@" + t)) == Some(Strip(x))
  {
    var pat := "cEDH event -";
    assert '@' !in pat + x by { assert '@' !in pat; }
    EventNameFromTitle(pat + x, t);
    ReplaceAllLeading(pat, x);
  }

  /**
   * A title shaped like the example in the scraper's own comment,
   * "cEDH event - <name> @ <place> @ mtgtop8.com", names the event <name>.
   */
  lemma EventNamePadded(m: string, t: string)
    requires |m| > 0 && !IsSpace(m[0]) && !IsSpace(m[|m| - 1])
    requires '@' !in m && 'c' !in m
    ensures EventName(None, Some("cEDH event - " + m + " @" + t)) == Some(m)
  {
    var x := " " + m + " ";
    assert "cEDH event - " + m + " @" + t == "cEDH event -" + x + "@" + t;
    EventNameLeadingPattern(x, t);
    StripPadded(m);
  }

  /** The example title itself: its event is "CEDH Tournament". */
  lemma EventNameExample()
    ensures EventName(None, Some("cEDH event - " + "CEDH Tournament" + " @" + " Spacity Cards (Hot Springs, AR) @ mtgtop8.com")) ==
            Some("CEDH Tournament")
  {
    EventNamePadded("CEDH Tournament", " Spacity Cards (Hot Springs, AR) @ mtgtop8.com");
  }

  /**
   * `parse_event`: the name as above, no date, the page URL and the
   * distinct absolute deck links; nothing when the page has neither `h1`
   * nor title.
   */
  method ParseEvent(eventUrl: string, h1: Option<string>, title: Option<string>, deckHrefs: seq<string>)
    returns (r: Option<EventData>)
    ensures r.None? <==> h1.None? && title.None?
    ensures r.Some? ==> r.value.name == EventName(h1, title).value && r.value.date.None? && r.value.url == eventUrl
    ensures r.Some? ==> NoDuplicates(r.value.deckLinks)
    ensures r.Some? ==> forall x :: x in r.value.deckLinks <==> exists k :: 0 <= k < |deckHrefs| && x == Link(deckHrefs[k])
  {
    var name := EventName(h1, title);
    if name.None? {
      return None;
    }
    var links := GetCedhEventLinks(deckHrefs);
    r := Some(EventData(name.value, None, eventUrl, links));
  }

  // ----------------------------------------------------------------- deck

  datatype DeckCard = DeckCard(name: string, quantity: nat)

  datatype DeckData = DeckData(name: string, commander: Option<string>, cards: seq<DeckCard>,
                               placement: Option<string>, url: string)

  /**
   * The deck name of `parse_deck`: the `h1` text, or the stripped title
   * before its first '@' with "Decklist:" removed and stripped again.
   */
  function DeckName(h1: Option<string>, title: Option<string>): (r: Option<string>)
    ensures r.None? <==> h1.None? && title.None?
    ensures h1.Some? ==> r == h1
    ensures h1.None? && title.Some? ==> '@' !in r.value && NoOuterSpace(r.value)
  {
    if h1.Some? then h1
    else if title.Some? then Some(CleanHead(Strip(title.value), '@', "Decklist:"))
    else None
  }

  /**
   * A title whose stripped text has an '@' names the deck by the text
   * before its first '@', with "Decklist:" removed, then stripped.
   */
  lemma DeckNameFromTitle(title: string, h: string, t: string)
    requires '@' !in h && Strip(title) == h + "@" + t
    ensures DeckName(None, Some(title)) == Some(Strip(ReplaceAll(h, "Decklist:", "")))
  {
    BeforeFirstSplit(h, '@', t);
  }

  /** A stripped title without an '@' gives the deck name with "Decklist:" removed, stripped. */
  lemma DeckNameWholeTitle(title: string)
    requires '@' !in Strip(title)
    ensures DeckName(None, Some(title)) == Some(Strip(ReplaceAll(Strip(title), "Decklist:", "")))
  {
    BeforeFirstNone(Strip(title), '@');
  }

  /** The rows `table.Stable tr` selects, table after table. */
  function Flatten(tables: seq<seq<Row>>): (r: seq<Row>)
    ensures |tables| > 0 && |tables[0]| > 0 ==> |r| > 0 && r[0] == tables[0][0]
  {
    if |tables| == 0 then []
    else
      var init := tables[..|tables| - 1];
      assert |init| > 0 ==> init[0] == tables[0];
      Flatten(init) + tables[|tables| - 1]
  }

  /** A two-cell row whose second cell mentions "commander" in any case. */
  predicate IsCommanderRow(row: Row) {
    |row| == 2 && Contains(Lower(row[1]), "commander")
  }

  /** The first commander row from `i` on. */
  function FirstCommanderRow(rows: seq<Row>, i: nat): (r: Option<nat>)
    requires i <= |rows|
    ensures r.Some? ==> i <= r.value < |rows| && IsCommanderRow(rows[r.value])
    ensures r.Some? ==> forall j :: i <= j < r.value ==> !IsCommanderRow(rows[j])
    ensures r.None? ==> forall j :: i <= j < |rows| ==> !IsCommanderRow(rows[j])
    decreases |rows| - i
  {
    if i == |rows| then None
    else if IsCommanderRow(rows[i]) then Some(i)
    else FirstCommanderRow(rows, i + 1)
  }

  /**
   * The commander named by a label: the stripped text between the first
   * and the second ':' when there is a ':', else the stripped label. It
   * never holds a ':' and never has outer whitespace.
   */
  function CommanderFromLabel(cellText: string): (r: string)
    ensures ':' !in r && NoOuterSpace(r)
  {
    var field := if ':' in cellText then SecondField(cellText, ':') else cellText;
    StripKeepsAbsent(field, ':');
    Strip(field)
  }

  /** A label without ':' names the commander by the whole label, stripped. */
  lemma CommanderWholeLabel(cellText: string)
    requires ':' !in cellText
    ensures CommanderFromLabel(cellText) == Strip(cellText)
  {
  }

  /**
   * A label "a:b" or "a:b:..." names the commander by `b`, the text between
   * the first and the second ':', stripped.
   */
  lemma CommanderSecondField(a: string, b: string, t: string)
    requires ':' !in a && ':' !in b && (t == [] || t[0] == ':')
    ensures CommanderFromLabel(a + ":" + b + t) == Strip(b)
  {
    SecondFieldSplit(a, ':', b, t);
    assert ':' in a + ":" + b + t by { assert (a + ":" + b + t)[|a|] == ':'; }
  }

  /** What the first commander row names, if there is one. */
  function LabelCommander(rows: seq<Row>): Option<string> {
    match FirstCommanderRow(rows, 0)
    case Some(k) => Some(CommanderFromLabel(rows[k][1]))
    case None => None
  }

  /**
   * The commander of `parse_deck`: the label commander when it is
   * non-empty; else the second cell of the first row of the first table
   * when that row has two cells; else the label commander as it was.
   */
  function DeckCommander(tables: seq<seq<Row>>): Option<string> {
    var c := LabelCommander(Flatten(tables));
    if Truthy(c) then c
    else if |tables| > 0 && |tables[0]| > 0 && |tables[0][0]| == 2 then Some(tables[0][0][1])
    else c
  }

  lemma {:induction false} FirstCommanderRowIs(rows: seq<Row>, i: nat, k: nat)
    requires i <= k < |rows| && IsCommanderRow(rows[k])
    requires forall j :: i <= j < k ==> !IsCommanderRow(rows[j])
    ensures FirstCommanderRow(rows, i) == Some(k)
    decreases k - i
  {
    if i < k {
      FirstCommanderRowIs(rows, i + 1, k);
    }
  }

  /** The first commander row decides when its label names someone. */
  lemma CommanderFromFirstRow(tables: seq<seq<Row>>, k: nat)
    requires k < |Flatten(tables)| && IsCommanderRow(Flatten(tables)[k])
    requires forall j :: 0 <= j < k ==> !IsCommanderRow(Flatten(tables)[j])
    requires |CommanderFromLabel(Flatten(tables)[k][1])| > 0
    ensures DeckCommander(tables) == Some(CommanderFromLabel(Flatten(tables)[k][1]))
  {
    FirstCommanderRowIs(Flatten(tables), 0, k);
  }

  /**
   * A first commander row whose label names nobody (as "Commander:" does)
   * falls through to the first row of the first table when it has two
   * cells, and otherwise leaves the empty name.
   */
  lemma CommanderEmptyLabel(tables: seq<seq<Row>>, k: nat)
    requires k < |Flatten(tables)| && IsCommanderRow(Flatten(tables)[k])
    requires forall j :: 0 <= j < k ==> !IsCommanderRow(Flatten(tables)[j])
    requires CommanderFromLabel(Flatten(tables)[k][1]) == ""
    ensures DeckCommander(tables) ==
              if |tables[0]| > 0 && |tables[0][0]| == 2 then Some(tables[0][0][1]) else Some("")
  {
    FirstCommanderRowIs(Flatten(tables), 0, k);
    assert |tables| > 0;
  }

  /** Without a commander row, a two-cell first row of the first table names the commander. */
  lemma CommanderFallback(tables: seq<seq<Row>>)
    requires forall j :: 0 <= j < |Flatten(tables)| ==> !IsCommanderRow(Flatten(tables)[j])
    requires |tables| > 0 && |tables[0]| > 0 && |tables[0][0]| == 2
    ensures DeckCommander(tables) == Some(tables[0][0][1])
  {
    assert FirstCommanderRow(Flatten(tables), 0).None?;
  }

  /** Without a commander row and without the fallback row there is no commander. */
  lemma NoCommander(tables: seq<seq<Row>>)
    requires forall j :: 0 <= j < |Flatten(tables)| ==> !IsCommanderRow(Flatten(tables)[j])
    requires !(|tables| > 0 && |tables[0]| > 0 && |tables[0][0]| == 2)
    ensures DeckCommander(tables).None?
  {
    assert FirstCommanderRow(Flatten(tables), 0).None?;
  }

  /** A card row: two cells, the first all ASCII digits. */
  predicate IsCardRow(row: Row) {
    |row| == 2 && IsDigitString(row[0])
  }

  function CardOf(row: Row): DeckCard
    requires IsCardRow(row)
  {
    DeckCard(row[1], DigitsValue(row[0]))
  }

  /** The cards of a deck: one per card row, in order. */
  function DeckCards(rows: seq<Row>): (r: seq<DeckCard>)
    ensures |r| <= |rows|
  {
    if |rows| == 0 then []
    else
      var last := rows[|rows| - 1];
      DeckCards(rows[..|rows| - 1]) + (if IsCardRow(last) then [CardOf(last)] else [])
  }

  /** Every card row gives its card. */
  lemma {:induction false} DeckCardsComplete(rows: seq<Row>, i: nat)
    requires i < |rows| && IsCardRow(rows[i])
    ensures CardOf(rows[i]) in DeckCards(rows)
  {
    var init := rows[..|rows| - 1];
    if i < |rows| - 1 {
      assert init[i] == rows[i];
      DeckCardsComplete(init, i);
    }
  }

  /** Every card comes from a card row, with the row's number as its quantity. */
  lemma {:induction false} DeckCardsSound(rows: seq<Row>, k: nat) returns (i: nat)
    requires k < |DeckCards(rows)|
    ensures i < |rows| && IsCardRow(rows[i]) && DeckCards(rows)[k] == CardOf(rows[i])
  {
    var init := rows[..|rows| - 1];
    var r0 := DeckCards(init);
    if k < |r0| {
      assert DeckCards(rows)[k] == r0[k];
      i := DeckCardsSound(init, k);
      assert init[i] == rows[i];
    } else {
      i := |rows| - 1;
    }
  }

  /** The commander loop of `parse_deck`: stop at the first commander row. */
  method FindCommander(rows: seq<Row>) returns (commander: Option<string>)
    ensures commander == LabelCommander(rows)
  {
    commander := None;
    var i := 0;
    while i < |rows|
      invariant 0 <= i <= |rows|
      invariant commander.None? && FirstCommanderRow(rows, 0) == FirstCommanderRow(rows, i)
    {
      if |rows[i]| == 2 {
        var cellText := rows[i][1];
        if Contains(Lower(cellText), "commander") {
          commander := Some(CommanderFromLabel(cellText));
          break;
        }
      }
      i := i + 1;
    }
  }

  /** The card loop of `parse_deck`. */
  method CollectCards(rows: seq<Row>) returns (cards: seq<DeckCard>)
    ensures cards == DeckCards(rows)
  {
    cards := [];
    var i := 0;
    while i < |rows|
      invariant 0 <= i <= |rows|
      invariant cards == DeckCards(rows[..i])
    {
      assert rows[..i + 1][..i] == rows[..i];
      var row := rows[i];
      if |row| == 2 {
        if IsDigitString(row[0]) {
          cards := cards + [DeckCard(row[1], DigitsValue(row[0]))];
        }
      }
      i := i + 1;
    }
    assert rows[..i] == rows;
  }

  /**
   * `parse_deck`: the name, the commander (the first commander row, with
   * the first-table fallback), the card rows as cards, no placement and
   * the page URL; nothing when the page has neither `h1` nor title.
   */
  method ParseDeck(deckUrl: string, h1: Option<string>, title: Option<string>, tables: seq<seq<Row>>)
    returns (r: Option<DeckData>)
    ensures r.None? <==> h1.None? && title.None?
    ensures r.Some? ==> r.value.name == DeckName(h1, title).value && r.value.url == deckUrl && r.value.placement.None?
    ensures r.Some? ==> r.value.commander == DeckCommander(tables)
    ensures r.Some? ==> r.value.cards == DeckCards(Flatten(tables))
  {
    var name := DeckName(h1, title);
    if name.None? {
      return None;
    }
    var rows := Flatten(tables);
    var commander := FindCommander(rows);
    if !Truthy(commander) {
      if |tables| > 0 && |tables[0]| > 0 {
        var firstRow := tables[0][0];
        if |firstRow| == 2 {
          commander := Some(firstRow[1]);
        }
      }
    }
    var cards := CollectCards(rows);
    r := Some(DeckData(name.value, commander, cards, None, deckUrl));
  }

  // ----------------------------------------------------------------- save

  /** The first tournament with this name and date (a missing date matches a missing date). */
  function FindTournament(ts: seq<MetaTournament>, name: string, date: Option<Date>, i: nat): (r: Option<nat>)
    requires i <= |ts|
    ensures r.Some? ==> i <= r.value < |ts| && ts[r.value].name == name && ts[r.value].date == date
    ensures r.None? ==> forall k :: i <= k < |ts| ==> !(ts[k].name == name && ts[k].date == date)
    decreases |ts| - i
  {
    if i == |ts| then None
    else if ts[i].name == name && ts[i].date == date then Some(i)
    else FindTournament(ts, name, date, i + 1)
  }

  /** No two tournaments share a name and a date. */
  predicate UniqueEvents(ts: seq<MetaTournament>) {
    forall i, j :: 0 <= i < j < |ts| ==> !(ts[i].name == ts[j].name && ts[i].date == ts[j].date)
  }

  /**
   * The tournaments after the find-or-create of `save_deck_to_db`: the
   * table as it was when the event is there, else the table with the
   * event appended under the next id.
   */
  function WithTournament(ts: seq<MetaTournament>, e: EventData): (r: seq<MetaTournament>)
    ensures FindTournament(r, e.name, e.date, 0).Some?
    ensures r == ts || r == ts + [MetaTournament(|ts| + 1, e.name, e.date, e.url)]
    ensures FindTournament(ts, e.name, e.date, 0).Some? <==> r == ts
    ensures UniqueEvents(ts) ==> UniqueEvents(r)
  {
    if FindTournament(ts, e.name, e.date, 0).Some? then ts
    else
      var r := ts + [MetaTournament(|ts| + 1, e.name, e.date, e.url)];
      assert r[|ts|].name == e.name && r[|ts|].date == e.date;
      r
  }

  /** Saving a second deck of the same event adds no tournament. */
  lemma WithTournamentIdempotent(ts: seq<MetaTournament>, e: EventData)
    ensures WithTournament(WithTournament(ts, e), e) == WithTournament(ts, e)
  {
  }

  /**
   * The card rows of a saved deck: the cards in order, each flagged as the
   * commander exactly when its name is the deck's commander.
   */
  function CardRows(deckId: int, cards: seq<DeckCard>, commander: Option<string>): (r: seq<MetaDeckCard>)
    ensures |r| == |cards|
    ensures forall k :: 0 <= k < |r| ==> r[k].deckId == deckId && r[k].cardName == cards[k].name &&
                                         r[k].quantity == cards[k].quantity
    ensures forall k :: 0 <= k < |r| ==> (r[k].isCommander <==> commander == Some(cards[k].name))
  {
    seq(|cards|, k requires 0 <= k < |cards| =>
      MetaDeckCard(deckId, cards[k].name, cards[k].quantity, commander == Some(cards[k].name)))
  }

  /** The card loop of `save_deck_to_db`. */
  method BuildCardRows(deckId: int, cards: seq<DeckCard>, commander: Option<string>) returns (rows: seq<MetaDeckCard>)
    ensures rows == CardRows(deckId, cards, commander)
  {
    rows := [];
    var i := 0;
    while i < |cards|
      invariant 0 <= i <= |cards|
      invariant rows == CardRows(deckId, cards[..i], commander)
    {
      var card := cards[i];
      rows := rows + [MetaDeckCard(deckId, card.name, card.quantity, commander == Some(card.name))];
      assert cards[..i + 1] == cards[..i] + [card];
      i := i + 1;
    }
    assert cards[..i] == cards;
  }

  /** The meta tables the scraper writes. */
  class MetaDb {
    var tournaments: seq<MetaTournament>
    var decks: seq<MetaDeck>
    var deckCards: seq<MetaDeckCard>

    /**
     * Ids are positions plus one; every deck refers to a stored tournament
     * and every card row to a stored deck; events are unique.
     */
    ghost predicate Valid()
      reads this
    {
      (forall i :: 0 <= i < |tournaments| ==> tournaments[i].id == i + 1) &&
      (forall i :: 0 <= i < |decks| ==> decks[i].id == i + 1 && 1 <= decks[i].tournamentId <= |tournaments|) &&
      (forall i :: 0 <= i < |deckCards| ==> 1 <= deckCards[i].deckId <= |decks|) &&
      UniqueEvents(tournaments)
    }

    constructor ()
      ensures Valid() && tournaments == [] && decks == [] && deckCards == []
    {
      tournaments, decks, deckCards := [], [], [];
    }

    /**
     * `save_deck_to_db`: find or create the tournament, append the deck
     * under it, then one card row per card.
     */
    method SaveDeckToDb(e: EventData, d: DeckData)
      requires Valid()
      modifies this
      ensures Valid()
      ensures tournaments == WithTournament(old(tournaments), e)
      ensures var t := FindTournament(tournaments, e.name, e.date, 0).value;
              decks == old(decks) + [MetaDeck(|old(decks)| + 1, d.name, d.commander, tournaments[t].id, d.placement, d.url)]
      ensures deckCards == old(deckCards) + CardRows(|old(decks)| + 1, d.cards, d.commander)
    {
      var found := FindTournament(tournaments, e.name, e.date, 0);
      if found.None? {
        tournaments := tournaments + [MetaTournament(|tournaments| + 1, e.name, e.date, e.url)];
      }
      assert tournaments == WithTournament(old(tournaments), e);
      var t := FindTournament(tournaments, e.name, e.date, 0).value;
      var deckId := |decks| + 1;
      decks := decks + [MetaDeck(deckId, d.name, d.commander, tournaments[t].id, d.placement, d.url)];

      var cardRows := BuildCardRows(deckId, d.cards, d.commander);
      deckCards := deckCards + cardRows;
    }
  }
}
