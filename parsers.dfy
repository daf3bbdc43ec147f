/**
 * The number and percentage readers of the EDHREC page parser and the two
 * page parsers, whose page selectors are still unwritten so that they return
 * their empty initial results. Digits are the ASCII digits; the percentage
 * is the exact rational value of the matched text divided by 100.
 */
module Parsers {
  import opened Wrappers
  import opened Text

  // --------------------------------------------------------------- digits

  function Pow10(n: nat): (r: nat)
    ensures r >= 1
  {
    if n == 0 then 1 else 10 * Pow10(n - 1)
  }

  lemma AllDigitsConcat(a: string, b: string)
    requires AllDigits(a) && AllDigits(b)
    ensures AllDigits(a + b)
  {
    forall i | 0 <= i < |a + b| ensures IsDigit((a + b)[i]) {
      if i < |a| {
        assert (a + b)[i] == a[i];
      } else {
        assert (a + b)[i] == b[i - |a|];
      }
    }
  }

  lemma ShiftDigit(x: int, w: int, y: int, d: int)
    ensures (x * w + y) * 10 + d == x * (10 * w) + (y * 10 + d)
  {
  }

  /** The last digit of `a + b` is the last digit of the non-empty `b`. */
  lemma LastOfConcat(a: string, b: string)
    requires |b| > 0
    ensures (a + b)[..|a + b| - 1] == a + b[..|b| - 1]
    ensures (a + b)[|a + b| - 1] == b[|b| - 1]
  {
  }

  /** Reading `a` then `b` as one decimal numeral. */
  lemma {:induction false} DigitsValueConcat(a: string, b: string)
    requires AllDigits(a) && AllDigits(b)
    ensures AllDigits(a + b)
    ensures DigitsValue(a + b) == DigitsValue(a) * Pow10(|b|) + DigitsValue(b)
  {
    AllDigitsConcat(a, b);
    if b == [] {
      assert a + b == a;
    } else {
      var b', c := b[..|b| - 1], b[|b| - 1];
      LastOfConcat(a, b);
      assert AllDigits(b');
      DigitsValueConcat(a, b');
      var x, y, w := DigitsValue(a), DigitsValue(b'), Pow10(|b'|);
      calc {
        DigitsValue(a + b);
        DigitsValue(a + b') * 10 + DigitValue(c);
        (x * w + y) * 10 + DigitValue(c);
        { ShiftDigit(x, w, y, DigitValue(c)); }
        x * (10 * w) + (y * 10 + DigitValue(c));
        x * Pow10(|b|) + DigitsValue(b);
      }
    }
  }

  /** The longest prefix of `s` made of digits. */
  function DigitPrefix(s: string): (r: string)
    ensures AllDigits(r) && |r| <= |s| && r == s[..|r|]
    ensures |r| < |s| ==> !IsDigit(s[|r|])
  {
    if s != [] && IsDigit(s[0]) then [s[0]] + DigitPrefix(s[1..]) else []
  }

  lemma {:induction false} DigitPrefixOf(d: string, q: string)
    requires AllDigits(d) && (q == [] || !IsDigit(q[0]))
    ensures DigitPrefix(d + q) == d
  {
    if d != [] {
      assert (d + q)[1..] == d[1..] + q;
      DigitPrefixOf(d[1..], q);
      assert d == [d[0]] + d[1..];
    } else {
      assert d + q == q;
    }
  }

  /** `c` does not occur in `s`. */
  predicate Lacks(s: string, c: char)
  {
    forall i :: 0 <= i < |s| ==> s[i] != c
  }

  lemma LacksConcat(x: string, y: string, c: char)
    requires Lacks(x, c) && Lacks(y, c)
    ensures Lacks(x + y, c)
  {
    forall i | 0 <= i < |x + y| ensures (x + y)[i] != c {
      if i < |x| {
        assert (x + y)[i] == x[i];
      } else {
        assert (x + y)[i] == y[i - |x|];
      }
    }
  }

  lemma DigitsLack(d: string, c: char)
    requires AllDigits(d) && !IsDigit(c)
    ensures Lacks(d, c)
  {
  }

  /** `s.replace(c, '')`. */
  function RemoveChar(s: string, c: char): (r: string)
    ensures |r| <= |s|
  {
    if s == [] then [] else (if s[0] == c then [] else [s[0]]) + RemoveChar(s[1..], c)
  }

  /** Every occurrence of `c` is gone, and nothing but occurrences of `c`. */
  lemma {:induction false} RemoveCharRemovesAll(s: string, c: char)
    ensures Lacks(RemoveChar(s, c), c)
    ensures |RemoveChar(s, c)| == |s| - multiset(s)[c]
  {
    if s != [] {
      RemoveCharRemovesAll(s[1..], c);
      assert s == [s[0]] + s[1..];
      assert multiset(s) == multiset{s[0]} + multiset(s[1..]);
    }
  }

  lemma {:induction false} RemoveCharConcat(a: string, b: string, c: char)
    ensures RemoveChar(a + b, c) == RemoveChar(a, c) + RemoveChar(b, c)
  {
    if a != [] {
      assert (a + b)[1..] == a[1..] + b;
      RemoveCharConcat(a[1..], b, c);
    } else {
      assert a + b == b;
    }
  }

  lemma {:induction false} RemoveCharAbsent(s: string, c: char)
    requires Lacks(s, c)
    ensures RemoveChar(s, c) == s
  {
    if s != [] {
      RemoveCharAbsent(s[1..], c);
      assert s == [s[0]] + s[1..];
    }
  }

  /** Every character other than `c` survives the removal. */
  lemma {:induction false} RemoveCharKeeps(s: string, c: char, i: nat) returns (j: nat)
    requires i < |s| && s[i] != c
    ensures j < |RemoveChar(s, c)| && RemoveChar(s, c)[j] == s[i]
  {
    var head := if s[0] == c then [] else [s[0]];
    var tail := RemoveChar(s[1..], c);
    assert RemoveChar(s, c) == head + tail;
    if i == 0 {
      j := 0;
    } else {
      var k := RemoveCharKeeps(s[1..], c, i - 1);
      j := |head| + k;
      assert (head + tail)[j] == tail[k];
    }
  }

  /** Every character of the result was already in the input. */
  lemma {:induction false} RemoveCharFrom(s: string, c: char, j: nat) returns (i: nat)
    requires j < |RemoveChar(s, c)|
    ensures i < |s| && s[i] == RemoveChar(s, c)[j]
  {
    var head := if s[0] == c then [] else [s[0]];
    var tail := RemoveChar(s[1..], c);
    assert RemoveChar(s, c) == head + tail;
    if j < |head| {
      i := 0;
    } else {
      var k := RemoveCharFrom(s[1..], c, j - |head|);
      i := k + 1;
      assert (head + tail)[j] == tail[j - |head|];
    }
  }

  /** Removing a non-digit character keeps a digit iff there was one. */
  lemma RemoveCharKeepsDigits(s: string, c: char)
    requires !IsDigit(c)
    ensures (exists i :: 0 <= i < |s| && IsDigit(s[i])) <==>
            (exists i :: 0 <= i < |RemoveChar(s, c)| && IsDigit(RemoveChar(s, c)[i]))
  {
    var r := RemoveChar(s, c);
    if i :| 0 <= i < |s| && IsDigit(s[i]) {
      var j := RemoveCharKeeps(s, c, i);
      assert IsDigit(r[j]);
    }
    if j :| 0 <= j < |r| && IsDigit(r[j]) {
      var i := RemoveCharFrom(s, c, j);
      assert IsDigit(s[i]);
    }
  }

  // -------------------------------------------------------- _extract_number

  /** `re.search(r'(\d+)', s)` from position `i`: the first maximal digit run, read as a number. */
  function FirstNumberFrom(s: string, i: nat): (r: Option<nat>)
    requires i <= |s|
    ensures r.None? <==> forall j :: i <= j < |s| ==> !IsDigit(s[j])
    decreases |s| - i
  {
    if i == |s| then None
    else if IsDigit(s[i]) then Some(DigitsValue(DigitPrefix(s[i..])))
    else FirstNumberFrom(s, i + 1)
  }

  /** `_extract_number`: drop the commas, then read the first run of digits. */
  function ExtractNumber(text: Option<string>): (r: Option<nat>)
    ensures text.None? || |text.value| == 0 ==> r.None?
    ensures r.None? <==> text.None? || forall i :: 0 <= i < |text.value| ==> !IsDigit(text.value[i])
  {
    if text.None? || |text.value| == 0 then None
    else
      RemoveCharKeepsDigits(text.value, ',');
      FirstNumberFrom(RemoveChar(text.value, ','), 0)
  }

  lemma {:induction false} FirstNumberAfter(p: string, d: string, q: string, i: nat)
    requires i <= |p| && IsDigitString(d) && (q == [] || !IsDigit(q[0]))
    requires forall j :: 0 <= j < |p| ==> !IsDigit(p[j])
    ensures FirstNumberFrom(p + d + q, i) == Some(DigitsValue(d))
    decreases |p| - i
  {
    var s := p + d + q;
    if i < |p| {
      assert s[i] == p[i];
      FirstNumberAfter(p, d, q, i + 1);
    } else {
      assert s[i] == d[0];
      assert s[i..] == d + q;
      DigitPrefixOf(d, q);
    }
  }

  /**
   * Text without commas whose first digits are the run `d`: the result is
   * the value of `d`.
   */
  lemma ExtractNumberReadsRun(p: string, d: string, q: string)
    requires IsDigitString(d) && (q == [] || !IsDigit(q[0]))
    requires forall j :: 0 <= j < |p| ==> !IsDigit(p[j])
    requires Lacks(p, ',') && Lacks(q, ',')
    ensures ExtractNumber(Some(p + d + q)) == Some(DigitsValue(d))
  {
    DigitsLack(d, ',');
    LacksConcat(p, d, ',');
    LacksConcat(p + d, q, ',');
    RemoveCharAbsent(p + d + q, ',');
    FirstNumberAfter(p, d, q, 0);
  }

  /** Removing the one `c` between two pieces free of `c` joins the pieces. */
  lemma RemoveSeparator(x: string, y: string, c: char)
    requires Lacks(x, c) && Lacks(y, c)
    ensures RemoveChar(x + [c] + y, c) == x + y
  {
    var xc := x + [c];
    assert RemoveChar([c], c) == [] by {
      assert [c][1..] == [];
    }
    calc {
      RemoveChar(xc + y, c);
      { RemoveCharConcat(xc, y, c); }
      RemoveChar(xc, c) + RemoveChar(y, c);
      { RemoveCharConcat(x, [c], c); RemoveCharAbsent(y, c); }
      RemoveChar(x, c) + [] + y;
      { RemoveCharAbsent(x, c); assert x + [] == x; }
      x + y;
    }
  }

  lemma RegroupAroundSeparator(p: string, a: string, m: string, b: string, q: string)
    ensures p + a + m + b + q == (p + a) + m + (b + q)
  {
  }

  lemma RegroupJoined(p: string, a: string, b: string, q: string)
    ensures (p + a) + (b + q) == p + (a + b) + q
  {
  }

  /** Dropping the comma of "a,b" between comma-free `p` and `q`. */
  lemma ThousandsCommaRemoved(p: string, a: string, b: string, q: string)
    requires AllDigits(a) && AllDigits(b)
    requires Lacks(p, ',') && Lacks(q, ',')
    ensures RemoveChar(p + a + [','] + b + q, ',') == p + (a + b) + q
  {
    DigitsLack(a, ',');
    DigitsLack(b, ',');
    LacksConcat(p, a, ',');
    LacksConcat(b, q, ',');
    calc {
      RemoveChar(p + a + [','] + b + q, ',');
      { RegroupAroundSeparator(p, a, [','], b, q); }
      RemoveChar((p + a) + [','] + (b + q), ',');
      { RemoveSeparator(p + a, b + q, ','); }
      (p + a) + (b + q);
      { RegroupJoined(p, a, b, q); }
      p + (a + b) + q;
    }
  }

  lemma ReadAfterRemoval(s: string, t: string)
    requires |s| > 0 && RemoveChar(s, ',') == t
    ensures ExtractNumber(Some(s)) == FirstNumberFrom(t, 0)
  {
  }

  /** A thousands separator is ignored: "1,234 decks" reads as 1234. */
  lemma ExtractNumberThousands(p: string, a: string, b: string, q: string)
    requires IsDigitString(a) && IsDigitString(b) && |b| == 3 && (q == [] || !IsDigit(q[0]))
    requires forall j :: 0 <= j < |p| ==> !IsDigit(p[j])
    requires Lacks(p, ',') && Lacks(q, ',')
    ensures ExtractNumber(Some(p + a + [','] + b + q)) == Some(DigitsValue(a) * 1000 + DigitsValue(b))
  {
    var s := p + a + [','] + b + q;
    ThousandsCommaRemoved(p, a, b, q);
    ReadAfterRemoval(s, p + (a + b) + q);
    DigitsValueConcat(a, b);
    assert Pow10(3) == 1000;
    FirstNumberAfter(p, a + b, q, 0);
  }

  // ---------------------------------------------------- _extract_percentage

  /** The end of the digit run that starts at `i`. */
  function RunEnd(s: string, i: nat): (r: nat)
    requires i <= |s|
    ensures i <= r <= |s|
    ensures forall j :: i <= j < r ==> IsDigit(s[j])
    ensures r < |s| ==> !IsDigit(s[r])
    decreases |s| - i
  {
    if i < |s| && IsDigit(s[i]) then RunEnd(s, i + 1) else i
  }

  lemma {:induction false} RunEndOf(s: string, i: nat, n: nat)
    requires i + n <= |s| && (forall j :: i <= j < i + n ==> IsDigit(s[j]))
    requires i + n == |s| || !IsDigit(s[i + n])
    ensures RunEnd(s, i) == i + n
    decreases n
  {
    if n > 0 {
      RunEndOf(s, i + 1, n - 1);
    }
  }

  /** The value of "d" or of "d.f" (`d` the integer part, `f` the fraction digits). */
  function DecimalValue(d: string, f: string): real
    requires AllDigits(d) && AllDigits(f)
  {
    DigitsValue(d) as real + DigitsValue(f) as real / Pow10(|f|) as real
  }

  /**
   * `(\d+\.?\d*)%` anchored at `i`, with the backtracking worked out: the
   * digits from `i` up to the end of their run, then either '%' at once, or
   * '.', a (possibly empty) digit run and '%'. The value is the group
   * divided by 100.
   */
  function PercentAt(s: string, i: nat): (r: Option<real>)
    requires i < |s|
    ensures r.Some? ==> IsDigit(s[i]) && r.value >= 0.0
  {
    if !IsDigit(s[i]) then None
    else
      var e := RunEnd(s, i);
      if e < |s| && s[e] == '%' then Some(DecimalValue(s[i..e], []) / 100.0)
      else if e < |s| && s[e] == '.' then
        var f := RunEnd(s, e + 1);
        if f < |s| && s[f] == '%' then Some(DecimalValue(s[i..e], s[e + 1..f]) / 100.0)
        else None
      else None
  }

  /** The leftmost position from `i` on where the pattern matches. */
  function FirstPercentFrom(s: string, i: nat): (r: Option<nat>)
    requires i <= |s|
    ensures r.Some? ==> i <= r.value < |s| && PercentAt(s, r.value).Some?
    ensures r.Some? ==> forall k :: i <= k < r.value ==> PercentAt(s, k).None?
    ensures r.None? ==> forall k :: i <= k < |s| ==> PercentAt(s, k).None?
    decreases |s| - i
  {
    if i == |s| then None
    else if PercentAt(s, i).Some? then Some(i)
    else FirstPercentFrom(s, i + 1)
  }

  /** `_extract_percentage`, with the quotient stated exactly. */
  function ExtractPercentage(text: Option<string>): (r: Option<real>)
    ensures text.None? || |text.value| == 0 ==> r.None?
    ensures r.Some? ==> r.value >= 0.0
    ensures text.Some? ==>
              (r.None? <==> forall k :: 0 <= k < |text.value| ==> PercentAt(text.value, k).None?)
  {
    if text.None? || |text.value| == 0 then None
    else
      match FirstPercentFrom(text.value, 0)
      case None => None
      case Some(k) => PercentAt(text.value, k)
  }

  lemma {:induction false} FirstPercentIs(s: string, i: nat, j: nat)
    requires i <= j < |s| && PercentAt(s, j).Some?
    requires forall k :: i <= k < j ==> PercentAt(s, k).None?
    ensures FirstPercentFrom(s, i) == Some(j)
    decreases j - i
  {
    if i < j {
      FirstPercentIs(s, i + 1, j);
    }
  }

  /** A text with no '%' has no percentage. */
  lemma NoPercentSign(s: string)
    requires forall k :: 0 <= k < |s| ==> s[k] != '%'
    ensures ExtractPercentage(Some(s)) == None
  {
    forall k | 0 <= k < |s| ensures PercentAt(s, k).None? {
      if IsDigit(s[k]) {
        var e := RunEnd(s, k);
        if e < |s| && s[e] == '.' {
          var f := RunEnd(s, e + 1);
          assert f < |s| ==> s[f] != '%';
        }
      }
    }
  }

  /** Only a digit can start a match. */
  lemma NoMatchBefore(s: string, n: nat)
    requires n <= |s| && forall k :: 0 <= k < n ==> !IsDigit(s[k])
    ensures forall k :: 0 <= k < n ==> PercentAt(s, k).None?
  {
  }

  /** The digit run `d` written at `i` and not followed by a digit ends where `d` ends. */
  lemma RunOfSlice(s: string, i: nat, d: string)
    requires AllDigits(d) && i + |d| <= |s| && s[i..i + |d|] == d
    requires i + |d| == |s| || !IsDigit(s[i + |d|])
    ensures RunEnd(s, i) == i + |d|
  {
    forall j | i <= j < i + |d| ensures IsDigit(s[j]) {
      assert s[j] == s[i..i + |d|][j - i];
    }
    RunEndOf(s, i, |d|);
  }

  lemma IntegerValue(d: string)
    requires AllDigits(d)
    ensures DecimalValue(d, []) == DigitsValue(d) as real
  {
  }

  /** The digit run `d` at `i`, directly followed by '%'. */
  lemma IntegerMatchAt(s: string, i: nat, d: string)
    requires IsDigitString(d) && i + |d| < |s| && s[i..i + |d|] == d && s[i + |d|] == '%'
    ensures PercentAt(s, i) == Some(DigitsValue(d) as real / 100.0)
  {
    RunOfSlice(s, i, d);
    assert IsDigit(s[i]) by {
      assert s[i] == s[i..i + |d|][0];
    }
    IntegerValue(d);
  }

  /** The digit run `a` at `i`, then '.', the digit run `b` and '%'. */
  lemma DecimalMatchAt(s: string, i: nat, a: string, b: string)
    requires IsDigitString(a) && AllDigits(b)
    requires i + |a| + 1 + |b| < |s| && s[i..i + |a|] == a && s[i + |a|] == '.'
    requires s[i + |a| + 1..i + |a| + 1 + |b|] == b && s[i + |a| + 1 + |b|] == '%'
    ensures PercentAt(s, i) == Some(DecimalValue(a, b) / 100.0)
  {
    RunOfSlice(s, i, a);
    RunOfSlice(s, i + |a| + 1, b);
    assert IsDigit(s[i]) by {
      assert s[i] == s[i..i + |a|][0];
    }
  }

  /** A match at `i` with no digit before it is the one the search reports. */
  lemma MatchIsFirst(s: string, i: nat)
    requires i < |s| && PercentAt(s, i).Some?
    requires forall k :: 0 <= k < i ==> !IsDigit(s[k])
    ensures ExtractPercentage(Some(s)) == PercentAt(s, i)
  {
    NoMatchBefore(s, i);
    FirstPercentIs(s, 0, i);
  }

  /** No digit before `|p|` when `s` starts with the digit-free `p`. */
  lemma DigitFreePrefix(s: string, p: string)
    requires |p| <= |s| && s[..|p|] == p
    requires forall j :: 0 <= j < |p| ==> !IsDigit(p[j])
    ensures forall k :: 0 <= k < |p| ==> !IsDigit(s[k])
  {
    forall k | 0 <= k < |p| ensures !IsDigit(s[k]) {
      assert s[k] == s[..|p|][k];
    }
  }

  /** The first digits of the text are the integer `d`, directly followed by '%'. */
  lemma PercentOfInteger(p: string, d: string, q: string)
    requires IsDigitString(d)
    requires forall j :: 0 <= j < |p| ==> !IsDigit(p[j])
    ensures ExtractPercentage(Some(p + d + ['%'] + q)) == Some(DigitsValue(d) as real / 100.0)
  {
    var s := p + d + ['%'] + q;
    assert s[..|p|] == p && s[|p|..|p| + |d|] == d && s[|p| + |d|] == '%';
    DigitFreePrefix(s, p);
    IntegerMatchAt(s, |p|, d);
    MatchIsFirst(s, |p|);
  }

  /** Where the pieces of "p a.b% q" sit. */
  lemma DecimalLayout(p: string, a: string, b: string, q: string)
    ensures var s := p + a + ['.'] + b + ['%'] + q;
            s[..|p|] == p && s[|p|..|p| + |a|] == a && s[|p| + |a|] == '.' &&
            s[|p| + |a| + 1..|p| + |a| + 1 + |b|] == b && s[|p| + |a| + 1 + |b|] == '%'
  {
    var s := p + a + ['.'] + b + ['%'] + q;
    assert s == p + (a + (['.'] + (b + (['%'] + q))));
  }

  /** The first digits of the text are "a.b", directly followed by '%'. */
  lemma PercentOfDecimal(p: string, a: string, b: string, q: string)
    requires IsDigitString(a) && AllDigits(b)
    requires forall j :: 0 <= j < |p| ==> !IsDigit(p[j])
    ensures ExtractPercentage(Some(p + a + ['.'] + b + ['%'] + q)) == Some(DecimalValue(a, b) / 100.0)
  {
    var s := p + a + ['.'] + b + ['%'] + q;
    DecimalLayout(p, a, b, q);
    DigitFreePrefix(s, p);
    DecimalMatchAt(s, |p|, a, b);
    MatchIsFirst(s, |p|);
  }

  // ------------------------------------------------------------ page parsers

  /** A commander link found on the list page. */
  datatype CommanderLink = CommanderLink(name: string, urlPath: string)

  /** One related card of a commander page, with its two percentages. */
  datatype RelatedCard = RelatedCard(cardName: Option<string>, sourceList: Option<string>,
                                     inclusion: Option<real>, synergy: Option<real>)

  /** The deck statistics of a commander page, keyed as in the source dict. */
  datatype CommanderPage = CommanderPage(name: string, stats: map<string, real>, relatedCards: seq<RelatedCard>)

  /** `parse_commander_list_page`: no selector is defined yet, so no link is ever found. */
  function ParseCommanderListPage(html: string): (r: seq<CommanderLink>)
    ensures |r| == 0
  {
    []
  }

  /** `parse_commander_page`: the initial dict, with no stats and no related cards. */
  function ParseCommanderPage(html: string, commanderName: string): (r: Option<CommanderPage>)
    ensures r.Some? && r.value.name == commanderName
    ensures r.Some? && |r.value.stats| == 0 && |r.value.relatedCards| == 0
  {
    Some(CommanderPage(commanderName, map[], []))
  }
}
