/**
 * Slugs for the EDHREC card pages and the choice of which cards get a page
 * request. The slug is built by a chain of rewrites: lower-case, split-card
 * separators " // " to '-', delete every character that is not a word
 * character, whitespace or '-', turn each whitespace run into '-', shrink
 * each run of hyphens to one, and strip hyphens from both ends.
 */
module MainScraper {
  import opened Wrappers
  import opened Text

  /** A character a slug may contain: a word character that is not an ASCII capital, or '-'. */
  predicate SlugChar(c: char) { c == '-' || (IsWordChar(c) && !IsUpper(c)) }

  /** The characters the deletion step keeps: `[\w\s-]`. */
  predicate Allowed(c: char) { IsWordChar(c) || IsSpace(c) || c == '-' }

  /** Positions `i` and `i + 1` both hold '-'. */
  predicate HyphenPairAt(s: string, i: nat)
    requires i + 1 < |s|
  {
    s[i] == '-' && s[i + 1] == '-'
  }

  predicate NoDoubleHyphen(s: string) {
    forall i: nat :: i + 1 < |s| ==> !HyphenPairAt(s, i)
  }

  predicate NoOuterHyphen(s: string) {
    s == [] || (s[0] != '-' && s[|s| - 1] != '-')
  }

  /** Every property a finished slug has. */
  predicate IsSlug(s: string) {
    (forall i :: 0 <= i < |s| ==> SlugChar(s[i])) && NoDoubleHyphen(s) && NoOuterHyphen(s)
  }

  // ------------------------------------------------------------ the steps

  predicate AllSlugChars(s: string) { forall i :: 0 <= i < |s| ==> SlugChar(s[i]) }

  predicate NoUpper(s: string) { forall i :: 0 <= i < |s| ==> !IsUpper(s[i]) }

  /** `re.sub(r'[^\w\s-]', '', s)`. */
  function KeepAllowed(s: string): (r: string)
    ensures forall i :: 0 <= i < |r| ==> Allowed(r[i])
    ensures NoUpper(s) ==> NoUpper(r)
  {
    if s == [] then []
    else if Allowed(s[0]) then [s[0]] + KeepAllowed(s[1..])
    else KeepAllowed(s[1..])
  }

  function DropSpaces(s: string): (r: string)
    ensures |r| <= |s| && r == s[|s| - |r|..]
    ensures r == [] || !IsSpace(r[0])
  {
    if s != [] && IsSpace(s[0]) then DropSpaces(s[1..]) else s
  }

  /** `re.sub(r'\s+', '-', s)`: each maximal whitespace run becomes one '-'. */
  function SpacesToHyphen(s: string): (r: string)
    ensures (forall i :: 0 <= i < |s| ==> Allowed(s[i]) && !IsUpper(s[i])) ==> AllSlugChars(r)
    decreases |s|
  {
    if s == [] then []
    else if IsSpace(s[0]) then ['-'] + SpacesToHyphen(DropSpaces(s))
    else [s[0]] + SpacesToHyphen(s[1..])
  }

  function DropHyphens(s: string): (r: string)
    ensures |r| <= |s| && r == s[|s| - |r|..]
    ensures r == [] || r[0] != '-'
  {
    if s != [] && s[0] == '-' then DropHyphens(s[1..]) else s
  }

  /** Putting `c` in front keeps single hyphens unless it makes a new pair. */
  lemma ConsNoDoubleHyphen(c: char, t: string)
    requires NoDoubleHyphen(t) && (t == [] || c != '-' || t[0] != '-')
    ensures NoDoubleHyphen([c] + t)
  {
    var u := [c] + t;
    forall i: nat | i + 1 < |u| ensures !HyphenPairAt(u, i) {
      if i > 0 {
        assert !HyphenPairAt(t, i - 1);
        assert u[i] == t[i - 1] && u[i + 1] == t[i];
      }
    }
  }

  /** `re.sub(r'--+', '-', s)`: each run of two or more hyphens becomes one. */
  function CollapseHyphens(s: string): (r: string)
    ensures NoDoubleHyphen(r)
    ensures AllSlugChars(s) ==> AllSlugChars(r)
    ensures s != [] ==> r != [] && r[0] == s[0]
    decreases |s|
  {
    if s == [] then []
    else if s[0] == '-' then
      var d := DropHyphens(s);
      var t := CollapseHyphens(d);
      ConsNoDoubleHyphen('-', t);
      assert AllSlugChars(s) ==> AllSlugChars(d) by {
        if AllSlugChars(s) {
          forall i | 0 <= i < |d| ensures SlugChar(d[i]) {
            assert d[i] == s[|s| - |d| + i];
          }
        }
      }
      ['-'] + t
    else
      var t := CollapseHyphens(s[1..]);
      ConsNoDoubleHyphen(s[0], t);
      [s[0]] + t
  }

  function DropTrailingHyphens(s: string): (r: string)
    ensures |r| <= |s| && r == s[..|r|]
    ensures r == [] || r[|r| - 1] != '-'
  {
    if s != [] && s[|s| - 1] == '-' then DropTrailingHyphens(s[..|s| - 1]) else s
  }

  /** A contiguous piece of a string keeps its slug characters and its single hyphens. */
  lemma PieceKeepsSlugFacts(s: string, k: nat, t: string)
    requires k + |t| <= |s| && forall i :: 0 <= i < |t| ==> t[i] == s[k + i]
    ensures AllSlugChars(s) ==> AllSlugChars(t)
    ensures NoDoubleHyphen(s) ==> NoDoubleHyphen(t)
  {
    if NoDoubleHyphen(s) {
      forall i: nat | i + 1 < |t| ensures !HyphenPairAt(t, i) {
        assert !HyphenPairAt(s, k + i);
      }
    }
  }

  /** What stripping both ends keeps: the hyphen-free ends and the facts of a piece. */
  lemma StripFacts(s: string, a: string, b: string)
    requires a == DropHyphens(s) && b == DropTrailingHyphens(a)
    ensures NoOuterHyphen(b)
    ensures AllSlugChars(s) ==> AllSlugChars(b)
    ensures NoDoubleHyphen(s) ==> NoDoubleHyphen(b)
  {
    var k := |s| - |a|;
    forall i | 0 <= i < |b| ensures b[i] == s[k + i] {
      assert b[i] == a[i];
    }
    PieceKeepsSlugFacts(s, k, b);
    if b != [] {
      assert b[0] == a[0];
    }
  }

  /** `s.strip('-')`. */
  function StripHyphens(s: string): (r: string)
    ensures NoOuterHyphen(r)
    ensures AllSlugChars(s) ==> AllSlugChars(r)
    ensures NoDoubleHyphen(s) ==> NoDoubleHyphen(r)
  {
    var a := DropHyphens(s);
    var b := DropTrailingHyphens(a);
    StripFacts(s, a, b);
    b
  }

  /** `slugify_card_name`: a missing or empty name gives the empty slug. */
  function Slugify(name: Option<string>): (r: string)
    ensures name.None? || |name.value| == 0 ==> r == ""
    ensures IsSlug(r)
  {
    if name.None? || |name.value| == 0 then ""
    else
      var s2 := ReplaceAll(Lower(name.value), " // ", "-");
      ReplaceKeepsLower(Lower(name.value), " // ", "-");
      StripHyphens(CollapseHyphens(SpacesToHyphen(KeepAllowed(s2))))
  }

  /** The lower-casing of `ReplaceAll` keeps a string that has no upper-case letters. */
  lemma {:induction false} ReplaceKeepsLower(s: string, pat: string, rep: string)
    requires |pat| > 0 && NoUpper(s) && NoUpper(rep)
    ensures NoUpper(ReplaceAll(s, pat, rep))
    decreases |s|
  {
    if |s| >= |pat| {
      if s[..|pat|] == pat {
        ReplaceKeepsLower(s[|pat|..], pat, rep);
      } else {
        ReplaceKeepsLower(s[1..], pat, rep);
      }
    }
  }

  // ------------------------------------------------------------ idempotence

  lemma {:induction false} ReplaceWithoutSpace(s: string)
    requires forall i :: 0 <= i < |s| ==> s[i] != ' '
    ensures ReplaceAll(s, " // ", "-") == s
    decreases |s|
  {
    if |s| >= 4 {
      assert s[..4] != " // " by { assert s[0] != ' '; }
      ReplaceWithoutSpace(s[1..]);
      assert s == [s[0]] + s[1..];
    }
  }

  /** Without a '/', there is no " // " separator to replace. */
  lemma {:induction false} ReplaceWithoutSlash(s: string)
    requires forall i :: 0 <= i < |s| ==> s[i] != '/'
    ensures ReplaceAll(s, " // ", "-") == s
    decreases |s|
  {
    if |s| >= 4 {
      assert s[..4] != " // " by { assert s[1] != '/'; }
      ReplaceWithoutSlash(s[1..]);
      assert s == [s[0]] + s[1..];
    }
  }

  lemma {:induction false} KeepAllowedIdentity(s: string)
    requires forall i :: 0 <= i < |s| ==> Allowed(s[i])
    ensures KeepAllowed(s) == s
  {
    if s != [] {
      KeepAllowedIdentity(s[1..]);
      assert s == [s[0]] + s[1..];
    }
  }

  /** The deletion step works character by character: an allowed one is kept, any other dropped. */
  lemma KeepAllowedOne(c: char)
    ensures KeepAllowed([c]) == if Allowed(c) then [c] else []
  {
    assert [c][1..] == [];
  }

  /** The deletion step keeps the order of what it keeps: it distributes over concatenation. */
  lemma {:induction false} KeepAllowedAppend(a: string, b: string)
    ensures KeepAllowed(a + b) == KeepAllowed(a) + KeepAllowed(b)
  {
    if a == [] {
      assert a + b == b;
    } else {
      assert (a + b)[0] == a[0];
      assert (a + b)[1..] == a[1..] + b;
      KeepAllowedAppend(a[1..], b);
    }
  }

  /** A hyphen run ends at the first character that is not '-'. */
  lemma {:induction false} DropHyphensRun(h: string, t: string)
    requires forall i :: 0 <= i < |h| ==> h[i] == '-'
    requires t == [] || t[0] != '-'
    ensures DropHyphens(h + t) == t
  {
    if h == [] {
      assert h + t == t;
    } else {
      assert (h + t)[1..] == h[1..] + t;
      DropHyphensRun(h[1..], t);
    }
  }

  /**
   * The characters before a maximal run of hyphens are kept in order, and
   * the whole run, however long, becomes a single '-'.
   */
  lemma {:induction false} CollapseHyphensRun(w: string, h: string, t: string)
    requires forall i :: 0 <= i < |w| ==> w[i] != '-'
    requires |h| > 0 && forall i :: 0 <= i < |h| ==> h[i] == '-'
    requires t == [] || t[0] != '-'
    ensures CollapseHyphens(w + h + t) == w + "-" + CollapseHyphens(t)
  {
    if w == [] {
      assert w + h + t == h + t;
      DropHyphensRun(h, t);
    } else {
      assert (w + h + t)[1..] == w[1..] + h + t;
      CollapseHyphensRun(w[1..], h, t);
    }
  }

  /** A hyphen run at the end of a string is dropped whole. */
  lemma {:induction false} DropTrailingHyphensRun(m: string, h: string)
    requires forall i :: 0 <= i < |h| ==> h[i] == '-'
    requires m == [] || m[|m| - 1] != '-'
    ensures DropTrailingHyphens(m + h) == m
  {
    if h == [] {
      assert m + h == m;
    } else {
      assert (m + h)[..|m + h| - 1] == m + h[..|h| - 1];
      DropTrailingHyphensRun(m, h[..|h| - 1]);
    }
  }

  /** Stripping removes the outer hyphen runs and keeps everything between them. */
  lemma StripHyphensRuns(h1: string, m: string, h2: string)
    requires forall i :: 0 <= i < |h1| ==> h1[i] == '-'
    requires forall i :: 0 <= i < |h2| ==> h2[i] == '-'
    requires NoOuterHyphen(m)
    ensures StripHyphens(h1 + m + h2) == m
  {
    if m == [] {
      var h := h1 + h2;
      assert h1 + m + h2 == h + [];
      DropHyphensRun(h, []);
      DropTrailingHyphensRun([], []);
    } else {
      assert h1 + m + h2 == h1 + (m + h2);
      DropHyphensRun(h1, m + h2);
      DropTrailingHyphensRun(m, h2);
    }
  }

  lemma {:induction false} SpacesToHyphenIdentity(s: string)
    requires forall i :: 0 <= i < |s| ==> !IsSpace(s[i])
    ensures SpacesToHyphen(s) == s
  {
    if s != [] {
      SpacesToHyphenIdentity(s[1..]);
      assert s == [s[0]] + s[1..];
    }
  }

  lemma {:induction false} CollapseHyphensIdentity(s: string)
    requires NoDoubleHyphen(s)
    ensures CollapseHyphens(s) == s
    decreases |s|
  {
    if s != [] {
      assert NoDoubleHyphen(s[1..]) by {
        forall i: nat | i + 1 < |s[1..]| ensures !HyphenPairAt(s[1..], i) {
          assert !HyphenPairAt(s, i + 1);
          assert s[1..][i] == s[i + 1] && s[1..][i + 1] == s[i + 2];
        }
      }
      if s[0] == '-' {
        assert |s| == 1 || s[1] != '-' by {
          if |s| > 1 {
            assert !HyphenPairAt(s, 0);
          }
        }
        assert DropHyphens(s) == s[1..] by {
          assert DropHyphens(s) == DropHyphens(s[1..]);
        }
      }
      CollapseHyphensIdentity(s[1..]);
      assert s == [s[0]] + s[1..];
    }
  }

  lemma StripHyphensIdentity(s: string)
    requires NoOuterHyphen(s)
    ensures StripHyphens(s) == s
  {
  }

  lemma SlugCharFacts(s: string)
    requires AllSlugChars(s)
    ensures NoUpper(s)
    ensures forall i :: 0 <= i < |s| ==> !IsSpace(s[i]) && Allowed(s[i]) && s[i] != ' '
  {
  }

  /** A slug is its own slug: re-slugifying changes nothing. */
  lemma SlugifyIdempotent(name: Option<string>)
    ensures Slugify(Some(Slugify(name))) == Slugify(name)
  {
    var s := Slugify(name);
    if |s| > 0 {
      SlugCharFacts(s);
      LowerOfLower(s);
      ReplaceWithoutSpace(s);
      KeepAllowedIdentity(s);
      SpacesToHyphenIdentity(s);
      CollapseHyphensIdentity(s);
      StripHyphensIdentity(s);
      SlugifyByStages(s, s, s, s, s, s, s);
    }
  }

  // ------------------------------------------------------- worked examples

  /** Lower-case ASCII letters and hyphens only. */
  predicate AsciiSlug(s: string) { forall i :: 0 <= i < |s| ==> IsLowerLetter(s[i]) || s[i] == '-' }

  /** Letters of the ASCII alphabet only, either case. */
  predicate AsciiWord(s: string) { forall i :: 0 <= i < |s| ==> IsUpper(s[i]) || IsLowerLetter(s[i]) }

  lemma LowerAsciiWord(w: string)
    requires AsciiWord(w)
    ensures forall i :: 0 <= i < |Lower(w)| ==> IsLowerLetter(Lower(w)[i])
  {
  }

  lemma AsciiSlugFacts(s: string)
    requires AsciiSlug(s)
    ensures forall i :: 0 <= i < |s| ==> Allowed(s[i]) && !IsSpace(s[i])
  {
  }

  /** Dropping a whitespace run stops at the first character that is not whitespace. */
  lemma {:induction false} DropSpacesRun(sp: string, t: string)
    requires forall i :: 0 <= i < |sp| ==> IsSpace(sp[i])
    requires t == [] || !IsSpace(t[0])
    ensures DropSpaces(sp + t) == t
  {
    if sp == [] {
      assert sp + t == t;
    } else {
      assert (sp + t)[1..] == sp[1..] + t;
      DropSpacesRun(sp[1..], t);
    }
  }

  /**
   * The characters before a maximal whitespace run are kept in order, and
   * the whole run, however long, becomes a single '-'.
   */
  lemma {:induction false} SpacesToHyphenRun(w: string, sp: string, t: string)
    requires forall i :: 0 <= i < |w| ==> !IsSpace(w[i])
    requires |sp| > 0 && forall i :: 0 <= i < |sp| ==> IsSpace(sp[i])
    requires t == [] || !IsSpace(t[0])
    ensures SpacesToHyphen(w + sp + t) == w + "-" + SpacesToHyphen(t)
  {
    if w == [] {
      assert w + sp + t == sp + t;
      DropSpacesRun(sp, t);
    } else {
      assert (w + sp + t)[1..] == w[1..] + sp + t;
      SpacesToHyphenRun(w[1..], sp, t);
    }
  }

  /** No whitespace is left after the rewrite. */
  lemma {:induction false} SpacesToHyphenNoSpace(s: string)
    ensures forall i :: 0 <= i < |SpacesToHyphen(s)| ==> !IsSpace(SpacesToHyphen(s)[i])
    decreases |s|
  {
    if s != [] {
      if IsSpace(s[0]) {
        SpacesToHyphenNoSpace(DropSpaces(s));
      } else {
        SpacesToHyphenNoSpace(s[1..]);
      }
    }
  }

  lemma {:induction false} SpacesToHyphenOneSpace(a: string, b: string)
    requires forall i :: 0 <= i < |a| ==> !IsSpace(a[i])
    requires forall i :: 0 <= i < |b| ==> !IsSpace(b[i])
    ensures SpacesToHyphen(a + " " + b) == a + "-" + b
  {
    if a == [] {
      var t := a + " " + b;
      assert t[0] == ' ' && IsSpace(' ');
      assert t[1..] == b;
      assert DropSpaces(t) == DropSpaces(b);
      assert b == [] || !IsSpace(b[0]);
      assert DropSpaces(b) == b;
      SpacesToHyphenIdentity(b);
    } else {
      assert (a + " " + b)[1..] == a[1..] + " " + b;
      SpacesToHyphenOneSpace(a[1..], b);
    }
  }

  /** Chains the stage results of a non-empty name into its slug. */
  lemma SlugifyByStages(name: string, s1: string, s2: string, s3: string, s4: string, s5: string, slug: string)
    requires |name| > 0 && Lower(name) == s1 && ReplaceAll(s1, " // ", "-") == s2
    requires KeepAllowed(s2) == s3 && SpacesToHyphen(s3) == s4 && CollapseHyphens(s4) == s5
    requires StripHyphens(s5) == slug
    ensures Slugify(Some(name)) == slug
  {
  }

  /** Lower-casing works character by character, so it distributes over concatenation. */
  lemma LowerConcat(x: string, y: string)
    ensures Lower(x + y) == Lower(x) + Lower(y)
  {
    var l, r := Lower(x + y), Lower(x) + Lower(y);
    forall i | 0 <= i < |l| ensures l[i] == r[i] {
      if i < |x| {
        assert (x + y)[i] == x[i];
      } else {
        assert (x + y)[i] == y[i - |x|];
      }
    }
  }

  /** Lower-casing two words around a separator that has no capitals. */
  lemma LowerJoin(a: string, sep: string, b: string)
    requires NoUpper(sep)
    ensures Lower(a + sep + b) == Lower(a) + sep + Lower(b)
  {
    LowerConcat(a + sep, b);
    LowerConcat(a, sep);
    LowerOfLower(sep);
  }

  /** Two lower-case words joined by `sep`: every character but the separator is a letter. */
  lemma JoinedLetters(a: string, b: string, sep: char)
    requires forall i :: 0 <= i < |a| ==> IsLowerLetter(a[i])
    requires forall i :: 0 <= i < |b| ==> IsLowerLetter(b[i])
    ensures forall i :: 0 <= i < |a| + 1 + |b| ==> (IsLowerLetter((a + [sep] + b)[i]) || i == |a|)
    ensures (a + [sep] + b)[|a|] == sep
  {
    var s := a + [sep] + b;
    forall i | 0 <= i < |s| ensures IsLowerLetter(s[i]) || i == |a| {
      if i < |a| {
        assert s[i] == a[i];
      } else if i > |a| {
        assert s[i] == b[i - |a| - 1];
      }
    }
  }

  /** A lower-case ASCII slug passes the last four stages unchanged. */
  lemma SlugTail(s: string)
    requires AsciiSlug(s) && NoDoubleHyphen(s) && NoOuterHyphen(s)
    ensures KeepAllowed(s) == s && SpacesToHyphen(s) == s && CollapseHyphens(s) == s && StripHyphens(s) == s
  {
    AsciiSlugFacts(s);
    KeepAllowedIdentity(s);
    SpacesToHyphenIdentity(s);
    CollapseHyphensIdentity(s);
    StripHyphensIdentity(s);
  }

  /** A name with one " // " and no other '/': the separator becomes a single '-'. */
  lemma {:induction false} ReplaceSeparator(a: string, b: string)
    requires forall i :: 0 <= i < |a| ==> a[i] != '/'
    requires forall i :: 0 <= i < |b| ==> b[i] != '/'
    ensures ReplaceAll(a + " // " + b, " // ", "-") == a + "-" + b
    decreases |a|
  {
    var s := a + " // " + b;
    if a == [] {
      assert s[..4] == " // " && s[4..] == b;
      ReplaceWithoutSlash(b);
      assert a + "-" + b == "-" + b;
    } else {
      assert s[1] != '/';
      assert s[1..] == a[1..] + " // " + b;
      ReplaceSeparator(a[1..], b);
      assert a + "-" + b == [a[0]] + (a[1..] + "-" + b);
    }
  }

  /** Two ASCII words joined by one space: both words lower-cased, joined by '-'. */
  lemma TwoWordSlug(a: string, b: string)
    requires |a| > 0 && |b| > 0 && AsciiWord(a) && AsciiWord(b)
    ensures Slugify(Some(a + " " + b)) == Lower(a) + "-" + Lower(b)
  {
    var la, lb := Lower(a), Lower(b);
    LowerAsciiWord(a);
    LowerAsciiWord(b);
    LowerJoin(a, " ", b);
    JoinedLetters(la, lb, ' ');
    JoinedLetters(la, lb, '-');
    var s1, s4 := la + " " + lb, la + "-" + lb;
    ReplaceWithoutSlash(s1);
    KeepAllowedIdentity(s1);
    SpacesToHyphenOneSpace(la, lb);
    SlugTail(s4);
    SlugifyByStages(a + " " + b, s1, s1, s1, s4, s4, s4);
  }

  /** A split card "A // B" of two ASCII words: both halves lower-cased, joined by '-'. */
  lemma SplitCardSlug(a: string, b: string)
    requires |a| > 0 && |b| > 0 && AsciiWord(a) && AsciiWord(b)
    ensures Slugify(Some(a + " // " + b)) == Lower(a) + "-" + Lower(b)
  {
    var la, lb := Lower(a), Lower(b);
    LowerAsciiWord(a);
    LowerAsciiWord(b);
    LowerJoin(a, " // ", b);
    JoinedLetters(la, lb, '-');
    var s1, s2 := la + " // " + lb, la + "-" + lb;
    ReplaceSeparator(la, lb);
    SlugTail(s2);
    SlugifyByStages(a + " // " + b, s1, s2, s2, s2, s2, s2);
  }

  // ---------------------------------------------------------- scrape_cards

  /** A card page request: the card's name, its local id and its slug. */
  datatype Target = Target(name: string, cardId: int, slug: string)

  /** A name the loop skips: no (non-zero) local id, or an empty slug. */
  predicate Skipped(n: string, idOf: string -> Option<int>) {
    idOf(n).None? || idOf(n).value == 0 || |Slugify(Some(n))| == 0
  }

  /**
   * The cards `scrape_cards` requests, in list order: a name without a
   * (non-zero) local id is skipped, and so is a name whose slug is empty.
   */
  function ScrapeTargets(names: seq<string>, idOf: string -> Option<int>): (r: seq<Target>)
    ensures |r| <= |names|
  {
    if names == [] then []
    else
      var init := ScrapeTargets(names[..|names| - 1], idOf);
      var n := names[|names| - 1];
      if Skipped(n, idOf) then init
      else init + [Target(n, idOf(n).value, Slugify(Some(n)))]
  }

  /** Every requested card has a non-zero local id and a non-empty slug of its own name. */
  lemma {:induction false} ScrapeTargetsSound(names: seq<string>, idOf: string -> Option<int>, t: Target)
    requires t in ScrapeTargets(names, idOf)
    ensures t.name in names && |t.slug| > 0 && t.slug == Slugify(Some(t.name))
    ensures idOf(t.name) == Some(t.cardId) && t.cardId != 0
  {
    var init := names[..|names| - 1];
    if t in ScrapeTargets(init, idOf) {
      ScrapeTargetsSound(init, idOf, t);
      assert t.name in names by { var k :| 0 <= k < |init| && init[k] == t.name; assert names[k] == t.name; }
    }
  }

  /** Every name that is not skipped is requested. */
  lemma {:induction false} ScrapeTargetsComplete(names: seq<string>, idOf: string -> Option<int>, i: nat)
    requires i < |names| && !Skipped(names[i], idOf)
    ensures Target(names[i], idOf(names[i]).value, Slugify(Some(names[i]))) in ScrapeTargets(names, idOf)
  {
    if i < |names| - 1 {
      var init := names[..|names| - 1];
      assert init[i] == names[i];
      ScrapeTargetsComplete(init, idOf, i);
    }
  }

  lemma ScrapeTargetsStep(names: seq<string>, i: nat, idOf: string -> Option<int>)
    requires i < |names|
    ensures ScrapeTargets(names[..i + 1], idOf) ==
            if Skipped(names[i], idOf) then ScrapeTargets(names[..i], idOf)
            else ScrapeTargets(names[..i], idOf) + [Target(names[i], idOf(names[i]).value, Slugify(Some(names[i])))]
  {
    assert names[..i + 1][..i] == names[..i];
  }

  /** The skip logic of the `scrape_cards` loop; `idOf` is the local id lookup. */
  method CardsToScrape(names: seq<string>, idOf: string -> Option<int>) returns (targets: seq<Target>)
    ensures targets == ScrapeTargets(names, idOf)
  {
    targets := [];
    var i := 0;
    while i < |names|
      invariant 0 <= i <= |names|
      invariant targets == ScrapeTargets(names[..i], idOf)
    {
      ScrapeTargetsStep(names, i, idOf);
      var name := names[i];
      var cardId := idOf(name);
      if cardId.None? || cardId.value == 0 {
        i := i + 1;
        continue;
      }
      var slug := Slugify(Some(name));
      if |slug| == 0 {
        i := i + 1;
        continue;
      }
      targets := targets + [Target(name, cardId.value, slug)];
      i := i + 1;
    }
    assert names[..i] == names;
  }
}
