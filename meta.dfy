/**
 * The top-commanders endpoint of the meta API: group the scraped decks by
 * commander (decks without one are left out), count each group, keep the
 * three largest groups, and report for each commander its count and up to
 * three of its decks. Ties between equal counts and the choice of example
 * decks are left to the database; the model breaks ties by insertion sort
 * over first appearance and takes a commander's first decks in table order.
 */
module Meta {
  import opened Wrappers
  import opened Text
  import opened Models

  /** `.limit(3)` of the grouping query. */
  const TopLimit: nat := 3

  /** `.limit(3)` of the example-deck query. */
  const DecksPerCommander: nat := 3

  datatype CommanderCount = CommanderCount(commander: string, count: nat)

  datatype DeckSummary = DeckSummary(id: int, name: string, placement: Option<string>, url: string)

  datatype CommanderSummary = CommanderSummary(commander: string, count: nat, decks: seq<DeckSummary>)

  /** The first `n` elements, or all of them when there are fewer. */
  function Take<T>(s: seq<T>, n: nat): (r: seq<T>)
    ensures |r| <= n && |r| <= |s|
    ensures |s| <= n ==> r == s
    ensures forall k :: 0 <= k < |r| ==> r[k] == s[k]
  {
    if |s| <= n then s else s[..n]
  }

  // ------------------------------------------------------------- grouping

  /** The decks whose commander is `c`, in table order. */
  function DecksOf(decks: seq<MetaDeck>, c: string): (r: seq<MetaDeck>)
    ensures |r| <= |decks|
    ensures forall k :: 0 <= k < |r| ==> r[k].commander == Some(c)
  {
    if |decks| == 0 then []
    else
      var last := decks[|decks| - 1];
      DecksOf(decks[..|decks| - 1], c) + (if last.commander == Some(c) then [last] else [])
  }

  /** Every deck of the commander is among its decks. */
  lemma {:induction false} DecksOfComplete(decks: seq<MetaDeck>, c: string, k: nat)
    requires k < |decks| && decks[k].commander == Some(c)
    ensures decks[k] in DecksOf(decks, c)
  {
    if k < |decks| - 1 {
      DecksOfComplete(decks[..|decks| - 1], c, k);
    }
  }

  /** Its decks all come from the table. */
  lemma {:induction false} DecksOfSound(decks: seq<MetaDeck>, c: string)
    ensures forall d :: d in DecksOf(decks, c) ==> d in decks
  {
    if |decks| > 0 {
      DecksOfSound(decks[..|decks| - 1], c);
    }
  }

  /** The commanders of the decks that have one, in table order, with repeats. */
  function CommanderNames(decks: seq<MetaDeck>): (r: seq<string>)
    ensures forall c :: c in r <==> exists k :: 0 <= k < |decks| && decks[k].commander == Some(c)
  {
    if |decks| == 0 then []
    else
      var init, last := decks[..|decks| - 1], decks[|decks| - 1];
      assert forall k :: 0 <= k < |init| ==> init[k] == decks[k];
      CommanderNames(init) + (if last.commander.Some? then [last.commander.value] else [])
  }

  /** No two groups share a commander. */
  predicate DistinctCommanders(s: seq<CommanderCount>) {
    forall i, j :: 0 <= i < j < |s| ==> s[i].commander != s[j].commander
  }

  /**
   * `GROUP BY commander` with `count(id)` over the decks whose commander
   * is not null: one group per distinct commander.
   */
  function Groups(decks: seq<MetaDeck>): (r: seq<CommanderCount>)
    ensures forall g :: g in r ==> g.count == |DecksOf(decks, g.commander)| && g.count >= 1
    ensures forall k :: 0 <= k < |decks| && decks[k].commander.Some? ==>
              exists g :: g in r && g.commander == decks[k].commander.value
    ensures DistinctCommanders(r)
  {
    var names := Dedup(CommanderNames(decks));
    var r := seq(|names|, i requires 0 <= i < |names| => CommanderCount(names[i], |DecksOf(decks, names[i])|));
    forall g | g in r ensures g.count >= 1 {
      var i :| 0 <= i < |r| && r[i] == g;
      var k :| 0 <= k < |decks| && decks[k].commander == Some(names[i]);
      DecksOfComplete(decks, names[i], k);
    }
    forall k | 0 <= k < |decks| && decks[k].commander.Some?
      ensures exists g :: g in r && g.commander == decks[k].commander.value
    {
      var c := decks[k].commander.value;
      assert c in names;
      var i :| 0 <= i < |names| && names[i] == c;
      assert r[i] in r;
    }
    r
  }

  // -------------------------------------------------------------- ordering

  /** `ORDER BY count DESC`. */
  predicate ByCount(s: seq<CommanderCount>) {
    forall i, j :: 0 <= i < j < |s| ==> s[i].count >= s[j].count
  }

  function Insert(x: CommanderCount, s: seq<CommanderCount>): seq<CommanderCount> {
    if |s| == 0 then [x]
    else if x.count >= s[0].count then [x] + s
    else [s[0]] + Insert(x, s[1..])
  }

  /** The head of a list ordered by count is at least every later element. */
  lemma HeadIsLargest(s: seq<CommanderCount>, y: CommanderCount)
    requires ByCount(s) && |s| > 0 && y in multiset(s[1..])
    ensures s[0].count >= y.count
  {
    var k :| 0 <= k < |s[1..]| && s[1..][k] == y;
    assert s[k + 1] == y;
  }

  /** Inserting adds the one element and loses none. */
  lemma {:induction false} InsertKeeps(x: CommanderCount, s: seq<CommanderCount>)
    ensures multiset(Insert(x, s)) == multiset(s) + multiset{x}
  {
    if |s| > 0 && x.count < s[0].count {
      InsertKeeps(x, s[1..]);
      assert s == [s[0]] + s[1..];
    }
  }

  /** Inserting into a list ordered by count keeps it ordered. */
  lemma {:induction false} InsertByCount(x: CommanderCount, s: seq<CommanderCount>)
    requires ByCount(s)
    ensures ByCount(Insert(x, s))
  {
    if |s| > 0 && x.count < s[0].count {
      InsertByCount(x, s[1..]);
      InsertKeeps(x, s[1..]);
      var tail := Insert(x, s[1..]);
      var r := [s[0]] + tail;
      forall i, j | 0 <= i < j < |r| ensures r[i].count >= r[j].count {
        if i == 0 {
          var y := tail[j - 1];
          assert y in multiset(tail);
          if y != x {
            HeadIsLargest(s, y);
          }
        }
      }
    }
  }

  /** Insertion sort by decreasing count. */
  function SortByCount(s: seq<CommanderCount>): seq<CommanderCount> {
    if |s| == 0 then [] else Insert(s[0], SortByCount(s[1..]))
  }

  /** The sort orders by decreasing count and keeps every group. */
  lemma {:induction false} SortByCountCorrect(s: seq<CommanderCount>)
    ensures ByCount(SortByCount(s))
    ensures multiset(SortByCount(s)) == multiset(s)
  {
    if |s| > 0 {
      SortByCountCorrect(s[1..]);
      InsertByCount(s[0], SortByCount(s[1..]));
      InsertKeeps(s[0], SortByCount(s[1..]));
      assert s == [s[0]] + s[1..];
    }
  }

  /** The grouping query: the groups by decreasing count, at most three. */
  function TopCommanders(decks: seq<MetaDeck>): (r: seq<CommanderCount>)
    ensures |r| <= TopLimit
  {
    Take(SortByCount(Groups(decks)), TopLimit)
  }

  /**
   * What the grouping query returns: at most three commanders, each with
   * the exact number of its decks (at least one), by decreasing count.
   */
  lemma TopCommandersCounts(decks: seq<MetaDeck>)
    ensures var r := TopCommanders(decks);
            |r| <= TopLimit && ByCount(r) &&
            forall k :: 0 <= k < |r| ==> r[k].count == |DecksOf(decks, r[k].commander)| && r[k].count >= 1
  {
    var groups := Groups(decks);
    var sorted := SortByCount(groups);
    SortByCountCorrect(groups);
    var r := TopCommanders(decks);
    forall k | 0 <= k < |r| ensures r[k].count == |DecksOf(decks, r[k].commander)| && r[k].count >= 1 {
      assert r[k] == sorted[k];
      assert sorted[k] in multiset(groups);
    }
  }

  /** An element of a sequence of distinct commanders occurs at most once. */
  lemma {:induction false} DistinctOnce(s: seq<CommanderCount>, x: CommanderCount)
    requires DistinctCommanders(s)
    ensures multiset(s)[x] <= 1
  {
    if |s| > 0 {
      DistinctOnce(s[1..], x);
      assert s == [s[0]] + s[1..];
      assert s[0] == x ==> x !in s[1..] by {
        forall k | 0 <= k < |s[1..]| ensures s[1..][k].commander != s[0].commander {
          assert s[1..][k] == s[k + 1];
        }
      }
    }
  }

  /** Equal elements at two positions occur at least twice. */
  lemma TwoCopies(s: seq<CommanderCount>, i: nat, j: nat)
    requires i < j < |s|
    ensures s[i] == s[j] ==> multiset(s)[s[i]] >= 2
  {
    assert s == s[..j] + s[j..];
    assert s[i] in s[..j];
    assert s[j] == s[j..][0];
  }

  /** The grouping query never lists a commander twice. */
  lemma TopCommandersDistinct(decks: seq<MetaDeck>)
    ensures DistinctCommanders(TopCommanders(decks))
  {
    var groups := Groups(decks);
    var sorted := SortByCount(groups);
    SortByCountCorrect(groups);
    var r := TopCommanders(decks);
    forall i, j | 0 <= i < j < |r| ensures r[i].commander != r[j].commander {
      assert r[i] == sorted[i] && r[j] == sorted[j];
      TwoCopies(sorted, i, j);
      DistinctOnce(groups, sorted[i]);
      assert sorted[i] != sorted[j];
      assert sorted[i] in multiset(groups) && sorted[j] in multiset(groups);
      var a :| 0 <= a < |groups| && groups[a] == sorted[i];
      var b :| 0 <= b < |groups| && groups[b] == sorted[j];
      assert a != b;
    }
  }

  /**
   * The three are the largest: a commander left out of a full answer has
   * no more decks than the third one listed, and an answer with fewer than
   * three commanders lists every commander.
   */
  lemma TopCommandersAreLargest(decks: seq<MetaDeck>, k: nat)
    requires k < |decks| && decks[k].commander.Some?
    requires forall i :: 0 <= i < |TopCommanders(decks)| ==> TopCommanders(decks)[i].commander != decks[k].commander.value
    ensures |TopCommanders(decks)| == TopLimit
    ensures |DecksOf(decks, decks[k].commander.value)| <= TopCommanders(decks)[TopLimit - 1].count
  {
    var c := decks[k].commander.value;
    var groups := Groups(decks);
    var sorted := SortByCount(groups);
    SortByCountCorrect(groups);
    var r := TopCommanders(decks);
    var g :| g in groups && g.commander == c;
    assert g in multiset(sorted);
    var j :| 0 <= j < |sorted| && sorted[j] == g;
    assert forall i :: 0 <= i < |r| ==> sorted[i].commander != c;
    assert r[TopLimit - 1] == sorted[TopLimit - 1];
  }

  // ------------------------------------------------------------- response

  function Summary(d: MetaDeck): DeckSummary {
    DeckSummary(d.id, d.name, d.placement, d.url)
  }

  /** The example-deck query: the first three decks of the commander. */
  function ExampleDecks(decks: seq<MetaDeck>, c: string): (r: seq<MetaDeck>)
    ensures |r| <= DecksPerCommander
    ensures forall k :: 0 <= k < |r| ==> r[k].commander == Some(c)
  {
    Take(DecksOf(decks, c), DecksPerCommander)
  }

  /**
   * One entry of the response: the commander, its count, and the id,
   * name, placement and url of each of its example decks, in order.
   */
  function Entry(decks: seq<MetaDeck>, top: CommanderCount): (r: CommanderSummary)
    ensures r.commander == top.commander && r.count == top.count
    ensures |r.decks| == |ExampleDecks(decks, top.commander)| <= DecksPerCommander
    ensures forall i :: 0 <= i < |r.decks| ==>
              var d := ExampleDecks(decks, top.commander)[i];
              r.decks[i] == DeckSummary(d.id, d.name, d.placement, d.url)
  {
    var examples := ExampleDecks(decks, top.commander);
    CommanderSummary(top.commander, top.count, seq(|examples|, i requires 0 <= i < |examples| => Summary(examples[i])))
  }

  /**
   * `get_top_commanders`: one entry per commander of the grouping query,
   * in its order.
   */
  method GetTopCommanders(decks: seq<MetaDeck>) returns (data: seq<CommanderSummary>)
    ensures |data| == |TopCommanders(decks)| <= TopLimit
    ensures forall k :: 0 <= k < |data| ==> data[k] == Entry(decks, TopCommanders(decks)[k])
  {
    var commanders := TopCommanders(decks);
    data := [];
    var k := 0;
    while k < |commanders|
      invariant 0 <= k <= |commanders| && |data| == k
      invariant forall j :: 0 <= j < k ==> data[j] == Entry(decks, commanders[j])
    {
      data := data + [Entry(decks, commanders[k])];
      k := k + 1;
    }
  }
}
