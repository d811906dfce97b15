/** The library matcher: tokens, overlap scores, the best suggestion and few-shot retrieval. */
module Matching {
  import opened Rounding
  import opened Strings
  import Vectors

  const STOP_WORDS := {
    "the", "a", "an", "and", "or", "of", "for", "in", "to", "on",
    "with", "at", "by", "from", "is", "are", "was", "were"}

  /** Python's `str.lower`, and `str.isalnum` on one character. */
  datatype Characters = Characters(lower: string -> string, alnum: char -> bool)

  function Words(ch: Characters, text: string): seq<string> {
    Split(ch.lower(text))
  }

  function Cleaned(ch: Characters, word: string): string {
    if word == "" then "" else
      (if ch.alnum(word[0]) then [word[0]] else "") + Cleaned(ch, word[1..])
  }

  predicate IsToken(t: string) {
    |t| > 1 && t !in STOP_WORDS
  }

  function TokensOf(ch: Characters, words: seq<string>): set<string> {
    set w | w in words && IsToken(Cleaned(ch, w)) :: Cleaned(ch, w)
  }

  method Tokenize(ch: Characters, text: string) returns (tokens: set<string>)
    ensures tokens == TokensOf(ch, Words(ch, text))
    ensures forall t :: t in tokens <==> IsTokenOf(ch, text, t)
  {
    tokens := {};
    var words := Words(ch, text);
    for k := 0 to |words|
      invariant tokens == TokensOf(ch, words[..k])
    {
      var cleaned := Cleaned(ch, words[k]);
      assert words[..k + 1] == words[..k] + [words[k]];
      if cleaned != "" && |cleaned| > 1 && cleaned !in STOP_WORDS {
        tokens := tokens + {cleaned};
      }
    }
    assert words[..|words|] == words;
    forall t ensures t in tokens <==> IsTokenOf(ch, text, t) {
      TokensAre(ch, text, t);
    }
  }

  lemma {:induction false} CleanedConcat(ch: Characters, a: string, b: string)
    ensures Cleaned(ch, a + b) == Cleaned(ch, a) + Cleaned(ch, b)
  {
    if a == "" {
      assert a + b == b;
    } else {
      assert (a + b)[1..] == a[1..] + b;
      CleanedConcat(ch, a[1..], b);
    }
  }

  /** Cleaning keeps a stretch of alphanumeric characters as it is and drops a stretch of others; so,
      stretch by stretch, a cleaned word is its alphanumeric characters in order. */
  lemma {:induction false} CleanedStretch(ch: Characters, s: string)
    ensures (forall k :: 0 <= k < |s| ==> ch.alnum(s[k])) ==> Cleaned(ch, s) == s
    ensures (forall k :: 0 <= k < |s| ==> !ch.alnum(s[k])) ==> Cleaned(ch, s) == ""
  {
    if s != "" {
      CleanedStretch(ch, s[1..]);
      assert s == [s[0]] + s[1..];
    }
  }

  /** Some word of the lower-cased text, stripped of what is not alphanumeric, is t, which has two
      characters or more and is no stop word. */
  predicate IsTokenOf(ch: Characters, text: string, t: string) {
    (exists k :: 0 <= k < |Split(ch.lower(text))| && t == Cleaned(ch, Split(ch.lower(text))[k])) && |t| >= 2 &&
    t !in {"the", "a", "an", "and", "or", "of", "for", "in", "to", "on",
           "with", "at", "by", "from", "is", "are", "was", "were"}
  }

  /** Those are a text's tokens. */
  lemma TokensAre(ch: Characters, text: string, t: string)
    ensures t in TokensOf(ch, Words(ch, text)) <==> IsTokenOf(ch, text, t)
  {
    hide Cleaned;
    var words := Words(ch, text);
    if t in TokensOf(ch, words) {
      var w :| w in words && IsToken(Cleaned(ch, w)) && t == Cleaned(ch, w);
      var k :| 0 <= k < |words| && words[k] == w;
    }
  }

  /** Adding words never loses a token. */
  lemma MoreWordsMoreTokens(ch: Characters, words: seq<string>, more: seq<string>)
    requires forall w :: w in words ==> w in more
    ensures TokensOf(ch, words) <= TokensOf(ch, more)
  {
  }

  /** Text added after a white-space character adds its words, where lower-casing does not look
      across that character. */
  lemma TextAdded(ch: Characters, text: string, sp: char, more: string)
    requires IsSpace(sp) && ch.lower(text + [sp] + more) == ch.lower(text) + [sp] + ch.lower(more)
    ensures Words(ch, text + [sp] + more) == Words(ch, text) + Words(ch, more)
  {
    SplitAtSpace(ch.lower(text), sp, ch.lower(more));
  }

  /** A line item of a bill of quantities. */
  datatype Item = Item(rawText: string, description: string)

  function ItemWords(ch: Characters, item: Item): seq<string> {
    Words(ch, item.rawText) + Words(ch, item.description)
  }

  function ItemTokens(ch: Characters, item: Item): set<string> {
    TokensOf(ch, ItemWords(ch, item))
  }

  // ---------- the library ----------

  datatype Pattern = Pattern(text: string, sector: string, confidence: real)

  /** A pattern with the tokens of its text. */
  datatype Entry = Entry(pattern: Pattern, tokens: set<string>)

  function EntryFor(ch: Characters, p: Pattern): Entry {
    Entry(p, TokensOf(ch, Words(ch, p.text)))
  }

  /** The library with its tokens, as the agent keeps it. */
  function Indexed(ch: Characters, patterns: seq<Pattern>): (library: seq<Entry>)
    ensures |library| == |patterns|
    ensures forall k :: 0 <= k < |patterns| ==> library[k] == EntryFor(ch, patterns[k])
  {
    seq(|patterns|, k requires 0 <= k < |patterns| => EntryFor(ch, patterns[k]))
  }

  /** The entry's tokens are those of the pattern's text. */
  ghost predicate IsEntryFor(ch: Characters, p: Pattern, e: Entry) {
    e.pattern == p && forall t :: t in e.tokens <==> IsTokenOf(ch, p.text, t)
  }

  lemma EntriesIndexed(ch: Characters, patterns: seq<Pattern>)
    ensures forall k :: 0 <= k < |patterns| ==> IsEntryFor(ch, patterns[k], Indexed(ch, patterns)[k])
  {
    hide TokensOf, IsTokenOf;
    forall k, t | 0 <= k < |patterns|
      ensures t in Indexed(ch, patterns)[k].tokens <==> IsTokenOf(ch, patterns[k].text, t)
    {
      TokensAre(ch, patterns[k].text, t);
    }
  }

  lemma TokensOfItem(ch: Characters, boq: Item)
    ensures forall t :: t in ItemTokens(ch, boq) <==>
      IsTokenOf(ch, boq.rawText, t) || IsTokenOf(ch, boq.description, t)
  {
    forall t ensures t in ItemTokens(ch, boq) <==>
      IsTokenOf(ch, boq.rawText, t) || IsTokenOf(ch, boq.description, t)
    {
      TokensAre(ch, boq.rawText, t);
      TokensAre(ch, boq.description, t);
      hide Words, IsToken, IsTokenOf;
      assert ItemTokens(ch, boq) ==
        TokensOf(ch, Words(ch, boq.rawText)) + TokensOf(ch, Words(ch, boq.description));
    }
  }

  // ---------- scores ----------

  /** The share of the pattern's tokens found in the item; 0 when either side has none. */
  function Overlap(item: set<string>, pattern: set<string>): real {
    if item == {} || pattern == {} then 0.0 else |item * pattern| as real / |pattern| as real
  }

  function Score(item: set<string>, e: Entry): real {
    Overlap(item, e.tokens) * e.pattern.confidence
  }

  lemma SubsetSize<T>(a: set<T>, b: set<T>)
    requires a <= b
    ensures |a| <= |b|
  {
    assert b == a + (b - a);
  }

  /** Overlap lies in [0, 1], reaches 1 exactly when every pattern token is found, and grows with the
      item. */
  lemma OverlapBounds(item: set<string>, pattern: set<string>)
    ensures 0.0 <= Overlap(item, pattern) <= 1.0
    ensures pattern != {} ==> (Overlap(item, pattern) == 1.0 <==> pattern <= item)
    ensures Overlap(item, pattern) > 0.0 <==> item * pattern != {}
  {
    var m := item * pattern;
    SubsetSize(m, pattern);
    if item != {} && pattern != {} {
      var p := |pattern| as real;
      Divide(|m| as real, p, p);
      if |m| == |pattern| {
        SameSize(m, pattern);
      } else {
        Less(|m| as real, p);
        assert m != pattern;
      }
      if m != {} {
        PositiveQuotient(|m| as real, p);
      }
    }
  }

  lemma PositiveQuotient(a: real, b: real)
    requires a > 0.0 && b > 0.0
    ensures a / b > 0.0
  {
  }

  lemma Less(a: real, b: real)
    requires a < b && b > 0.0
    ensures a / b < 1.0
  {
  }

  lemma SameSize<T>(a: set<T>, b: set<T>)
    requires a <= b && |a| == |b|
    ensures a == b
  {
    assert b == a + (b - a);
    assert |b - a| == 0;
  }

  lemma OverlapMonotone(item: set<string>, item': set<string>, pattern: set<string>)
    requires item <= item'
    ensures Overlap(item, pattern) <= Overlap(item', pattern)
  {
    OverlapBounds(item', pattern);
    if item != {} && pattern != {} {
      SubsetSize(item * pattern, item' * pattern);
      Divide(|item * pattern| as real, |item' * pattern| as real, |pattern| as real);
    }
  }

  // ---------- ranking ----------

  /** A library entry with its position and the score it was given. */
  datatype Ranked = Ranked(index: nat, entry: Entry, score: real)

  /** Higher scores first, earlier entries first among equals. */
  predicate Before(a: Ranked, b: Ranked) {
    a.score > b.score || (a.score == b.score && a.index < b.index)
  }

  predicate InOrder(s: seq<Ranked>) {
    forall k, l :: 0 <= k < l < |s| ==> Before(s[k], s[l])
  }

  predicate ByIndex(s: seq<Ranked>) {
    forall k, l :: 0 <= k < l < |s| ==> s[k].index < s[l].index
  }

  function Place(r: Ranked, s: seq<Ranked>): seq<Ranked> {
    if s == [] || r.score >= s[0].score then [r] + s else [s[0]] + Place(r, s[1..])
  }

  /** A stable sort by descending score, as `list.sort(reverse=True)` on the score. */
  function SortByScore(s: seq<Ranked>): seq<Ranked> {
    if s == [] then [] else Place(s[0], SortByScore(s[1..]))
  }

  lemma {:induction false} PlaceKeeps(r: Ranked, s: seq<Ranked>)
    ensures multiset(Place(r, s)) == multiset(s) + multiset{r}
  {
    if s != [] && r.score < s[0].score {
      PlaceKeeps(r, s[1..]);
      assert s == [s[0]] + s[1..];
    }
  }

  /** What comes before r and all of s comes before all of r placed in s. */
  lemma {:induction false} PlaceAfter(a: Ranked, r: Ranked, s: seq<Ranked>)
    requires Before(a, r) && forall k :: 0 <= k < |s| ==> Before(a, s[k])
    ensures forall k :: 0 <= k < |Place(r, s)| ==> Before(a, Place(r, s)[k])
  {
    hide Before;
    if s != [] && r.score < s[0].score {
      PlaceAfter(a, r, s[1..]);
    }
  }

  lemma InOrderCons(a: Ranked, s: seq<Ranked>)
    requires InOrder(s) && forall k :: 0 <= k < |s| ==> Before(a, s[k])
    ensures InOrder([a] + s)
  {
    hide Before;
  }

  lemma {:induction false} PlaceInOrder(r: Ranked, s: seq<Ranked>)
    requires InOrder(s) && forall k :: 0 <= k < |s| ==> r.index < s[k].index
    ensures InOrder(Place(r, s))
  {
    if s == [] || r.score >= s[0].score {
      assert forall k :: 0 < k < |s| ==> Before(s[0], s[k]);
      InOrderCons(r, s);
    } else {
      assert forall k :: 0 < k < |s| ==> Before(s[0], s[k]);
      PlaceInOrder(r, s[1..]);
      PlaceAfter(s[0], r, s[1..]);
      InOrderCons(s[0], Place(r, s[1..]));
    }
  }

  /** Sorting keeps the entries and orders them by score, ties by position. */
  lemma {:induction false} SortedStable(s: seq<Ranked>)
    requires ByIndex(s)
    ensures InOrder(SortByScore(s)) && multiset(SortByScore(s)) == multiset(s)
  {
    if s != [] {
      var rest := SortByScore(s[1..]);
      SortedStable(s[1..]);
      assert s == [s[0]] + s[1..];
      forall k | 0 <= k < |rest| ensures s[0].index < rest[k].index {
        assert rest[k] in multiset(s[1..]);
      }
      PlaceInOrder(s[0], rest);
      PlaceKeeps(s[0], rest);
    }
  }

  // ---------- the suggestion ----------

  datatype Suggestion = Suggestion(sector: string, confidence: real, matched: bool)

  const MATCH_THRESHOLD := 0.1
  const SCALE_UP := 1.2

  function ConfidenceFor(score: real): real {
    RoundTo(if score * SCALE_UP <= 1.0 then score * SCALE_UP else 1.0, 1000)
  }

  function FallbackSector(taxonomy: seq<string>): string {
    if taxonomy != [] then taxonomy[0] else "UNKNOWN"
  }

  /** Entry k is the suggestion: it shares a token with the item, no such entry scores more, and
      every earlier one scores less. */
  predicate Best(item: set<string>, library: seq<Entry>, k: nat) {
    k < |library| && Overlap(item, library[k].tokens) > 0.0 &&
    (forall l :: 0 <= l < |library| && Overlap(item, library[l].tokens) > 0.0 ==>
      Score(item, library[l]) <= Score(item, library[k])) &&
    (forall l :: 0 <= l < k && Overlap(item, library[l].tokens) > 0.0 ==>
      Score(item, library[l]) < Score(item, library[k]))
  }

  predicate NoStrongMatch(item: set<string>, library: seq<Entry>) {
    forall k :: 0 <= k < |library| && Overlap(item, library[k].tokens) > 0.0 ==>
      Score(item, library[k]) <= MATCH_THRESHOLD
  }

  /** The library entries that share a token with the item, scored, in library order. */
  method ScoreAll(item: set<string>, library: seq<Entry>, weighted: bool) returns (scored: seq<Ranked>)
    ensures Scored(item, library, weighted, scored)
  {
    hide Overlap;
    scored := [];
    for k := 0 to |library|
      invariant ByIndex(scored)
      invariant forall j :: 0 <= j < |scored| ==> scored[j].index < k
      invariant forall j :: 0 <= j < |scored| ==> IsScored(item, library, weighted, scored[j])
      invariant forall l :: 0 <= l < k && Overlap(item, library[l].tokens) > 0.0 ==>
        ScoredEntry(item, library, weighted, l) in scored
    {
      var overlap := Overlap(item, library[k].tokens);
      if overlap > 0.0 {
        scored := scored + [ScoredEntry(item, library, weighted, k)];
      }
    }
  }

  function ScoredEntry(item: set<string>, library: seq<Entry>, weighted: bool, k: nat): Ranked
    requires k < |library|
  {
    Ranked(k, library[k], if weighted then Score(item, library[k]) else Overlap(item, library[k].tokens))
  }

  predicate IsScored(item: set<string>, library: seq<Entry>, weighted: bool, r: Ranked) {
    r.index < |library| && Overlap(item, library[r.index].tokens) > 0.0 &&
    r == ScoredEntry(item, library, weighted, r.index)
  }

  predicate Scored(item: set<string>, library: seq<Entry>, weighted: bool, scored: seq<Ranked>) {
    ByIndex(scored) &&
    (forall j :: 0 <= j < |scored| ==> IsScored(item, library, weighted, scored[j])) &&
    (forall l :: 0 <= l < |library| && Overlap(item, library[l].tokens) > 0.0 ==>
      ScoredEntry(item, library, weighted, l) in scored)
  }

  function SuggestionFrom(item: set<string>, e: Entry): Suggestion {
    Suggestion(e.pattern.sector, ConfidenceFor(Score(item, e)), true)
  }

  /** What is suggested for an item with these tokens: the best entry when some score is above the
      threshold, the fallback otherwise. */
  ghost predicate Suggests(item: set<string>, library: seq<Entry>, taxonomy: seq<string>, s: Suggestion) {
    if NoStrongMatch(item, library) then s == Suggestion(FallbackSector(taxonomy), 0.1, false)
    else exists k: nat :: Best(item, library, k) && s == SuggestionFrom(item, library[k])
  }

  method SuggestOne(ch: Characters, boq: Item, patterns: seq<Pattern>, taxonomy: seq<string>)
    returns (s: Suggestion)
    ensures forall t :: t in ItemTokens(ch, boq) <==> IsTokenOf(ch, boq.rawText, t) || IsTokenOf(ch, boq.description, t)
    ensures forall k :: 0 <= k < |patterns| ==> IsEntryFor(ch, patterns[k], Indexed(ch, patterns)[k])
    ensures Suggests(ItemTokens(ch, boq), Indexed(ch, patterns), taxonomy, s)
    ensures Recommends(ItemTokens(ch, boq), Indexed(ch, patterns), taxonomy, s)
  {
    hide Overlap, Score, ConfidenceFor, Words, NoStrongMatch, IsToken;
    var library := Indexed(ch, patterns);
    var raw := Tokenize(ch, boq.rawText);
    var described := Tokenize(ch, boq.description);
    var item := raw + described;
    assert item == ItemTokens(ch, boq);
    var scored := ScoreAll(item, library, true);
    var ranked := SortByScore(scored);
    SortedStable(scored);
    HeadIsBest(item, library, scored, ranked);
    if ranked != [] && ranked[0].score > MATCH_THRESHOLD {
      s := Suggestion(ranked[0].entry.pattern.sector, ConfidenceFor(ranked[0].score), true);
    } else {
      s := Suggestion(FallbackSector(taxonomy), 0.1, false);
    }
    SuggestsRecommends(item, library, taxonomy, s);
    TokensOfItem(ch, boq);
    EntriesIndexed(ch, patterns);
  }

  // ---------- the suggestion in terms of token counts ----------

  /** How many of a pattern's tokens the item has. */
  function Hits(item: set<string>, e: Entry): real {
    |item * e.tokens| as real
  }

  function Size(e: Entry): real {
    |e.tokens| as real
  }

  /** Its share of the pattern, weighted by the pattern's confidence, is above 0.1. */
  predicate Strong(item: set<string>, e: Entry) {
    Hits(item, e) * e.pattern.confidence > 0.1 * Size(e)
  }

  /** Entry k has a token of the item, and no such entry's share of its pattern, weighted by its
      confidence, is greater, nor equal and earlier. */
  predicate Chosen(item: set<string>, library: seq<Entry>, k: nat) {
    k < |library| && Hits(item, library[k]) > 0.0 &&
    forall l :: 0 <= l < |library| && Hits(item, library[l]) > 0.0 ==>
      var a, b := library[l], library[k];
      var here := Hits(item, a) * a.pattern.confidence * Size(b);
      var there := Hits(item, b) * b.pattern.confidence * Size(a);
      here <= there && (l < k ==> here < there)
  }

  /** With a strong match, the chosen entry's sector, and 1.2 times its weighted share, at most 1, to
      the nearest 0.001; without, the first sector of the taxonomy at 0.1. */
  ghost predicate Recommends(item: set<string>, library: seq<Entry>, taxonomy: seq<string>, s: Suggestion) {
    if exists l :: 0 <= l < |library| && Strong(item, library[l]) then
      s.matched && exists k: nat :: Chosen(item, library, k) && Reports(item, library[k], s)
    else s == Suggestion(if taxonomy == [] then "UNKNOWN" else taxonomy[0], 0.1, false)
  }

  /** 1.2 times the weighted share, at most 1. */
  function RaisedShare(item: set<string>, e: Entry): real
    requires Size(e) > 0.0
  {
    var raised := 1.2 * (Hits(item, e) * e.pattern.confidence);
    if raised <= Size(e) then raised / Size(e) else 1.0
  }

  predicate Reports(item: set<string>, e: Entry, s: Suggestion) {
    Size(e) > 0.0 && s.sector == e.pattern.sector && Nearest(s.confidence, RaisedShare(item, e), 1000)
  }

  lemma ScoreIs(item: set<string>, e: Entry)
    ensures Overlap(item, e.tokens) > 0.0 <==> Hits(item, e) > 0.0
    ensures Hits(item, e) > 0.0 ==> Size(e) > 0.0
    ensures Hits(item, e) > 0.0 ==> Score(item, e) * Size(e) == Hits(item, e) * e.pattern.confidence
  {
    OverlapBounds(item, e.tokens);
    if Hits(item, e) > 0.0 {
      SubsetSize(item * e.tokens, e.tokens);
      ShareTimes(Hits(item, e), Size(e), e.pattern.confidence);
    }
  }

  lemma ShareTimes(h: real, n: real, c: real)
    requires n > 0.0
    ensures h / n * c * n == h * c
  {
    assert h / n * n == h;
  }

  /** Comparing a = p / m with b = q / n is comparing p n with q m. */
  lemma CrossCompare(a: real, b: real, m: real, n: real, p: real, q: real)
    requires m > 0.0 && n > 0.0 && a * m == p && b * n == q
    ensures a <= b <==> p * n <= q * m
    ensures a < b <==> p * n < q * m
  {
    var mn := m * n;
    assert mn > 0.0;
    assert p * n == a * mn && q * m == b * mn;
    if a < b {
      SamePositive(b - a, mn);
    } else if b < a {
      SamePositive(a - b, mn);
    }
  }

  lemma SamePositive(d: real, m: real)
    requires d > 0.0 && m > 0.0
    ensures d * m > 0.0
  {
  }

  lemma StrongIs(item: set<string>, e: Entry)
    ensures Strong(item, e) <==> Overlap(item, e.tokens) > 0.0 && Score(item, e) > MATCH_THRESHOLD
  {
    ScoreIs(item, e);
    hide Score, Overlap;
    if Hits(item, e) > 0.0 {
      CrossCompare(0.1, Score(item, e), Size(e), Size(e), 0.1 * Size(e), Hits(item, e) * e.pattern.confidence);
      Cancelled(0.1 * Size(e), Hits(item, e) * e.pattern.confidence, Size(e));
    } else {
      assert Hits(item, e) == 0.0;
    }
  }

  lemma Cancelled(a: real, b: real, n: real)
    requires n > 0.0
    ensures a * n < b * n <==> a < b
  {
  }

  lemma BestIsChosen(item: set<string>, library: seq<Entry>, k: nat)
    requires Best(item, library, k)
    ensures Chosen(item, library, k)
  {
    hide Score, Overlap, Hits, Size;
    ScoreIs(item, library[k]);
    forall l | 0 <= l < |library| && Hits(item, library[l]) > 0.0
      ensures var a, b := library[l], library[k];
        var here := Hits(item, a) * a.pattern.confidence * Size(b);
        var there := Hits(item, b) * b.pattern.confidence * Size(a);
        here <= there && (l < k ==> here < there)
    {
      var a, b := library[l], library[k];
      ScoreIs(item, a);
      CrossCompare(Score(item, a), Score(item, b), Size(a), Size(b),
        Hits(item, a) * a.pattern.confidence, Hits(item, b) * b.pattern.confidence);
    }
  }

  lemma ConfidenceReported(item: set<string>, e: Entry)
    requires Hits(item, e) > 0.0
    ensures Reports(item, e, SuggestionFrom(item, e))
  {
    ScoreIs(item, e);
    hide Score, Overlap, Hits, Size, Nearest, RoundTo;
    var n, raised, score := Size(e), 1.2 * (Hits(item, e) * e.pattern.confidence), Score(item, e);
    Raised(score, n, Hits(item, e) * e.pattern.confidence, raised);
    assert RaisedShare(item, e) == if score * 1.2 <= 1.0 then score * 1.2 else 1.0;
    var c := ConfidenceFor(score);
    assert c == RoundTo(RaisedShare(item, e), 1000);
    hide RaisedShare, ConfidenceFor;
    RoundToNearest(c, RaisedShare(item, e), 1000);
  }

  lemma Raised(score: real, n: real, p: real, raised: real)
    requires n > 0.0 && score * n == p && raised == 1.2 * p
    ensures score * 1.2 == raised / n
    ensures score * 1.2 <= 1.0 <==> raised <= n
  {
    var t := score * 1.2;
    assert t * n == raised;
    assert raised / n == t;
    if t > 1.0 {
      SamePositive(t - 1.0, n);
    } else if t < 1.0 {
      SamePositive(1.0 - t, n);
    }
  }

  lemma SuggestsRecommends(item: set<string>, library: seq<Entry>, taxonomy: seq<string>, s: Suggestion)
    requires Suggests(item, library, taxonomy, s)
    ensures Recommends(item, library, taxonomy, s)
  {
    hide Score, Overlap, Strong, Chosen, Reports, SuggestionFrom;
    forall l | 0 <= l < |library|
      ensures Strong(item, library[l]) <==>
        Overlap(item, library[l].tokens) > 0.0 && Score(item, library[l]) > MATCH_THRESHOLD
    {
      StrongIs(item, library[l]);
    }
    if !NoStrongMatch(item, library) {
      var k: nat :| Best(item, library, k) && s == SuggestionFrom(item, library[k]);
      BestIsChosen(item, library, k);
      ScoreIs(item, library[k]);
      ConfidenceReported(item, library[k]);
      SuggestionMatched(item, library[k]);
    }
  }

  lemma SuggestionMatched(item: set<string>, e: Entry)
    ensures SuggestionFrom(item, e).matched
  {
  }

  lemma HeadIsBest(item: set<string>, library: seq<Entry>, scored: seq<Ranked>, ranked: seq<Ranked>)
    requires Scored(item, library, true, scored)
    requires InOrder(ranked) && multiset(ranked) == multiset(scored)
    ensures ranked == [] ==> NoStrongMatch(item, library)
    ensures ranked != [] ==> Best(item, library, ranked[0].index) && IsScored(item, library, true, ranked[0])
    ensures ranked != [] ==> (NoStrongMatch(item, library) <==> ranked[0].score <= MATCH_THRESHOLD)
  {
    hide Overlap, Score;
    if ranked == [] {
      assert scored == [] by {
        assert |multiset(scored)| == 0;
      }
    } else {
      assert ranked[0] in multiset(scored);
      forall l | 0 <= l < |library| && Overlap(item, library[l].tokens) > 0.0
        ensures Score(item, library[l]) <= ranked[0].score
        ensures l < ranked[0].index ==> Score(item, library[l]) < ranked[0].score
      {
        var r := ScoredEntry(item, library, true, l);
        assert r in multiset(ranked);
        var j :| 0 <= j < |ranked| && ranked[j] == r;
      }
    }
  }

  lemma BestUnique(item: set<string>, library: seq<Entry>, k: nat, k': nat)
    requires Best(item, library, k) && Best(item, library, k')
    ensures k == k'
  {
    hide Overlap, Score;
  }

  /** Item, library and taxonomy determine the suggestion. */
  lemma SuggestionUnique(item: set<string>, library: seq<Entry>, taxonomy: seq<string>,
      s: Suggestion, s': Suggestion)
    requires Suggests(item, library, taxonomy, s) && Suggests(item, library, taxonomy, s')
    ensures s == s'
  {
    hide Overlap, Score, NoStrongMatch, SuggestionFrom;
    if !NoStrongMatch(item, library) {
      var k: nat :| Best(item, library, k) && s == SuggestionFrom(item, library[k]);
      var k': nat :| Best(item, library, k') && s' == SuggestionFrom(item, library[k']);
      BestUnique(item, library, k, k');
    }
  }

  /** A matched confidence is above the fallback's and at most 1, and grows with the score. */
  lemma ConfidenceMonotone(a: real, b: real)
    requires MATCH_THRESHOLD < a <= b
    ensures 0.12 <= ConfidenceFor(a) <= ConfidenceFor(b) <= 1.0
  {
    hide RoundTo;
    var x := if a * SCALE_UP <= 1.0 then a * SCALE_UP else 1.0;
    var y := if b * SCALE_UP <= 1.0 then b * SCALE_UP else 1.0;
    RoundToExact(0.12, 120, 1000);
    RoundToExact(1.0, 1000, 1000);
    RoundToMonotone(0.12, x, 1000);
    RoundToMonotone(x, y, 1000);
    RoundToMonotone(y, 1.0, 1000);
  }

  /** Library confidences lie in [0, 1], as their field demands. */
  predicate Confidences(patterns: seq<Pattern>) {
    forall k :: 0 <= k < |patterns| ==> 0.0 <= patterns[k].confidence <= 1.0
  }

  /** A strong match stays one, with a score at least as high. */
  lemma StrongMatchStays(item: set<string>, item': set<string>, e: Entry)
    requires item <= item' && 0.0 <= e.pattern.confidence && Overlap(item, e.tokens) > 0.0
    ensures Score(item, e) <= Score(item', e) && Overlap(item', e.tokens) > 0.0
  {
    OverlapMonotone(item, item', e.tokens);
    Vectors.ScaleLe(e.pattern.confidence, Overlap(item, e.tokens), Overlap(item', e.tokens));
  }

  lemma BestIsStrong(item: set<string>, library: seq<Entry>, k: nat)
    requires Best(item, library, k) && !NoStrongMatch(item, library)
    ensures Score(item, library[k]) > MATCH_THRESHOLD
  {
    hide Overlap, Score;
  }

  /** A strong match in one library is matched at least as well by a larger item in a larger one. */
  lemma StrongerMatch(item: set<string>, item': set<string>, e: Entry,
      library': seq<Entry>, taxonomy': seq<string>, s': Suggestion)
    requires item <= item' && 0.0 <= e.pattern.confidence && e in library'
    requires Overlap(item, e.tokens) > 0.0 && Score(item, e) > MATCH_THRESHOLD
    requires Suggests(item', library', taxonomy', s')
    ensures 0.12 <= ConfidenceFor(Score(item, e)) <= s'.confidence <= 1.0
  {
    hide Overlap, Score, ConfidenceFor;
    StrongMatchStays(item, item', e);
    var l :| 0 <= l < |library'| && library'[l] == e;
    assert !NoStrongMatch(item', library');
    var k': nat :| Best(item', library', k') && s' == SuggestionFrom(item', library'[k']);
    ConfidenceMonotone(Score(item, e), Score(item', library'[k']));
  }

  lemma ConfidenceRange(item: set<string>, library: seq<Entry>, taxonomy: seq<string>,
      s: Suggestion)
    requires Suggests(item, library, taxonomy, s)
    ensures 0.1 <= s.confidence <= 1.0
  {
    hide Overlap, Score, ConfidenceFor;
    if !NoStrongMatch(item, library) {
      var k: nat :| Best(item, library, k) && s == SuggestionFrom(item, library[k]);
      BestIsStrong(item, library, k);
      ConfidenceMonotone(Score(item, library[k]), Score(item, library[k]));
    }
  }

  /** Adding words to the item or patterns to the library, in whatever order, never lowers the
      confidence of the suggestion: not across the fallback threshold, the cap at 1 or the rounding. */
  lemma ConfidenceNeverFalls(ch: Characters, boq: Item, boq': Item,
      patterns: seq<Pattern>, patterns': seq<Pattern>, taxonomy: seq<string>, taxonomy': seq<string>,
      s: Suggestion, s': Suggestion)
    requires Suggests(ItemTokens(ch, boq), Indexed(ch, patterns), taxonomy, s)
    requires Suggests(ItemTokens(ch, boq'), Indexed(ch, patterns'), taxonomy', s')
    requires Confidences(patterns)
    requires forall w :: w in ItemWords(ch, boq) ==> w in ItemWords(ch, boq')
    requires forall p :: p in patterns ==> p in patterns'
    ensures 0.1 <= s.confidence <= s'.confidence <= 1.0
  {
    hide Overlap, Score, ConfidenceFor, TokensOf, ItemWords, Words;
    var item, library := ItemTokens(ch, boq), Indexed(ch, patterns);
    var item', library' := ItemTokens(ch, boq'), Indexed(ch, patterns');
    MoreWordsMoreTokens(ch, ItemWords(ch, boq), ItemWords(ch, boq'));
    ConfidenceRange(item', library', taxonomy', s');
    if !NoStrongMatch(item, library) {
      var k: nat :| Best(item, library, k) && s == SuggestionFrom(item, library[k]);
      BestIsStrong(item, library, k);
      assert patterns[k] in patterns';
      var l :| 0 <= l < |patterns'| && patterns'[l] == patterns[k];
      assert library'[l] == library[k];
      StrongerMatch(item, item', library[k], library', taxonomy', s');
    }
  }

  // ---------- few-shot retrieval ----------

  lemma ScoredByIndex(item: set<string>, library: seq<Entry>, weighted: bool, scored: seq<Ranked>)
    requires Scored(item, library, weighted, scored)
    ensures ByIndex(scored)
  {
  }

  /** Python's s[:k], which counts from the end when k is negative. */
  function Take<T>(s: seq<T>, k: int): seq<T> {
    if k >= |s| then s else if k >= 0 then s[..k] else if |s| + k >= 0 then s[..|s| + k] else []
  }

  /** The chosen entries are in order, all share a token with the text, and come before every entry
      that does and was not chosen. */
  predicate TopOverlaps(text: set<string>, library: seq<Entry>, chosen: seq<Ranked>) {
    InOrder(chosen) &&
    (forall j :: 0 <= j < |chosen| ==> IsScored(text, library, false, chosen[j])) &&
    (forall l, j | 0 <= l < |library| && Overlap(text, library[l].tokens) > 0.0 &&
        ScoredEntry(text, library, false, l) !in chosen && 0 <= j < |chosen| ::
      Before(chosen[j], ScoredEntry(text, library, false, l)))
  }

  /** All entries that share a token with the text, ranked. */
  predicate Ranking(text: set<string>, library: seq<Entry>, ranked: seq<Ranked>) {
    InOrder(ranked) &&
    (forall j :: 0 <= j < |ranked| ==> IsScored(text, library, false, ranked[j])) &&
    (forall l :: 0 <= l < |library| && Overlap(text, library[l].tokens) > 0.0 ==>
      ScoredEntry(text, library, false, l) in ranked)
  }

  /** The examples are the entries of the first k of the ranking. */
  ghost predicate FewShot(text: set<string>, library: seq<Entry>, topK: int, examples: seq<Entry>) {
    exists ranked: seq<Ranked> :: Ranking(text, library, ranked) && EntriesOf(Take(ranked, topK), examples)
  }

  predicate EntriesOf(ranked: seq<Ranked>, entries: seq<Entry>) {
    |entries| == |ranked| && forall j :: 0 <= j < |ranked| ==> entries[j] == ranked[j].entry
  }

  method FewShotExamples(ch: Characters, words: string, patterns: seq<Pattern>, topK: int)
    returns (examples: seq<Entry>)
    ensures FewShot(TokensOf(ch, Words(ch, words)), Indexed(ch, patterns), topK, examples)
  {
    hide Overlap, SortByScore, Scored, Ranking, InOrder, ByIndex;
    var library := Indexed(ch, patterns);
    var text := Tokenize(ch, words);
    var scored := ScoreAll(text, library, false);
    ScoredByIndex(text, library, false, scored);
    var ranked := SortByScore(scored);
    SortedStable(scored);
    SortedIsRanking(text, library, scored, ranked);
    var taken := Take(ranked, topK);
    examples := [];
    for j := 0 to |taken|
      invariant |examples| == j && forall l :: 0 <= l < j ==> examples[l] == taken[l].entry
    {
      examples := examples + [taken[j].entry];
    }
    assert EntriesOf(Take(ranked, topK), examples);
  }

  /** Text, library and k determine the examples. */
  lemma FewShotUnique(text: set<string>, library: seq<Entry>, topK: int,
      a: seq<Entry>, b: seq<Entry>)
    requires FewShot(text, library, topK, a) && FewShot(text, library, topK, b)
    ensures a == b
  {
    hide Ranking;
    var r: seq<Ranked> :| Ranking(text, library, r) && EntriesOf(Take(r, topK), a);
    var q: seq<Ranked> :| Ranking(text, library, q) && EntriesOf(Take(q, topK), b);
    RankingUnique(text, library, r, q);
  }

  /** The positions of the entries that share a token with the text: greater shares of the pattern
      first, earlier entries first among equal ones. */
  ghost predicate ShareOrder(text: set<string>, library: seq<Entry>, order: seq<nat>) {
    (forall l: nat :: l in order <==> l < |library| && Hits(text, library[l]) > 0.0) &&
    forall j, l :: 0 <= j < l < |order| && order[j] < |library| && order[l] < |library| ==>
      var a, b := library[order[j]], library[order[l]];
      var first, second := Hits(text, a) * Size(b), Hits(text, b) * Size(a);
      first > second || (first == second && order[j] < order[l])
  }

  /** How many of n entries Python's s[:k] takes. */
  function TakenOf(n: nat, k: int): nat {
    if k >= n then n else if k >= 0 then k else if n + k >= 0 then n + k else 0
  }

  /** The examples are the entries at the first of those positions. */
  lemma FewShotMeans(text: set<string>, library: seq<Entry>, topK: int, examples: seq<Entry>)
    returns (order: seq<nat>)
    requires FewShot(text, library, topK, examples)
    ensures ShareOrder(text, library, order) && |examples| == TakenOf(|order|, topK)
    ensures forall j :: 0 <= j < |examples| ==> order[j] < |library| && examples[j] == library[order[j]]
  {
    hide Overlap, Ranking, InOrder, IsScored, Before, Hits, Size;
    var ranked: seq<Ranked> :| Ranking(text, library, ranked) && EntriesOf(Take(ranked, topK), examples);
    order := seq(|ranked|, j requires 0 <= j < |ranked| => ranked[j].index);
    RankingOrder(text, library, ranked, order);
    RankedAre(text, library, ranked);
  }

  lemma RankedAre(text: set<string>, library: seq<Entry>, ranked: seq<Ranked>)
    requires Ranking(text, library, ranked)
    ensures forall j :: 0 <= j < |ranked| ==>
      ranked[j].index < |library| && ranked[j].entry == library[ranked[j].index] &&
      ranked[j].score == Overlap(text, ranked[j].entry.tokens) && Overlap(text, ranked[j].entry.tokens) > 0.0
  {
    hide Overlap, InOrder;
  }

  lemma RankingOrder(text: set<string>, library: seq<Entry>, ranked: seq<Ranked>, order: seq<nat>)
    requires Ranking(text, library, ranked) && |order| == |ranked|
    requires forall j :: 0 <= j < |ranked| ==> order[j] == ranked[j].index
    ensures ShareOrder(text, library, order)
  {
    RankedAre(text, library, ranked);
    hide Overlap, Hits, Size;
    forall l: nat ensures l in order <==> l < |library| && Hits(text, library[l]) > 0.0 {
      if l < |library| {
        ShareIs(text, library[l]);
        if Hits(text, library[l]) > 0.0 {
          assert ScoredEntry(text, library, false, l) in ranked;
          var j :| 0 <= j < |ranked| && ranked[j] == ScoredEntry(text, library, false, l);
          assert order[j] == l;
        }
      }
    }
    forall j, l | 0 <= j < l < |order|
      ensures var a, b := library[order[j]], library[order[l]];
        var first, second := Hits(text, a) * Size(b), Hits(text, b) * Size(a);
        first > second || (first == second && order[j] < order[l])
    {
      var a, b := library[order[j]], library[order[l]];
      assert Before(ranked[j], ranked[l]);
      ShareIs(text, a);
      ShareIs(text, b);
      CrossCompare(Overlap(text, b.tokens), Overlap(text, a.tokens), Size(b), Size(a), Hits(text, b), Hits(text, a));
    }
  }

  lemma ShareIs(item: set<string>, e: Entry)
    ensures Overlap(item, e.tokens) > 0.0 <==> Hits(item, e) > 0.0
    ensures Hits(item, e) > 0.0 ==> Size(e) > 0.0 && Overlap(item, e.tokens) * Size(e) == Hits(item, e)
  {
    OverlapBounds(item, e.tokens);
    if Hits(item, e) > 0.0 {
      SubsetSize(item * e.tokens, e.tokens);
      assert Hits(item, e) / Size(e) * Size(e) == Hits(item, e);
    }
  }

  lemma SortedIsRanking(text: set<string>, library: seq<Entry>, scored: seq<Ranked>,
      ranked: seq<Ranked>)
    requires Scored(text, library, false, scored)
    requires InOrder(ranked) && multiset(ranked) == multiset(scored)
    ensures Ranking(text, library, ranked)
  {
    hide Overlap;
    forall j | 0 <= j < |ranked| ensures IsScored(text, library, false, ranked[j]) {
      assert ranked[j] in multiset(scored);
    }
    forall l | 0 <= l < |library| && Overlap(text, library[l].tokens) > 0.0
      ensures ScoredEntry(text, library, false, l) in ranked
    {
      assert ScoredEntry(text, library, false, l) in multiset(ranked);
    }
  }

  /** There is one ranking, so the examples are determined by text and library. */
  lemma RankingUnique(text: set<string>, library: seq<Entry>, a: seq<Ranked>, b: seq<Ranked>)
    requires Ranking(text, library, a) && Ranking(text, library, b)
    ensures a == b
    decreases |a|
  {
    hide Overlap;
    forall r: Ranked ensures r in a <==> r in b {
    }
    SameOrder(a, b);
  }

  lemma FirstIsMember<T>(s: seq<T>)
    requires s != []
    ensures s[0] in s
  {
  }

  lemma TailMembers(s: seq<Ranked>, r: Ranked)
    requires s != [] && InOrder(s)
    ensures r in s[1..] <==> r in s && r != s[0]
  {
    assert s == [s[0]] + s[1..];
    assert forall k :: 0 < k < |s| ==> Before(s[0], s[k]);
  }

  lemma {:induction false} SameOrder(a: seq<Ranked>, b: seq<Ranked>)
    requires InOrder(a) && InOrder(b) && forall r: Ranked :: r in a <==> r in b
    ensures a == b
    decreases |a|
  {
    if a == [] {
      if b != [] {
        FirstIsMember(b);
      }
    } else {
      assert a[0] in a && a[0] in b;
      assert b[0] in b && b[0] in a;
      assert a[0] == b[0];
      forall r: Ranked ensures r in a[1..] <==> r in b[1..] {
        TailMembers(a, r);
        TailMembers(b, r);
      }
      SameOrder(a[1..], b[1..]);
      assert a == [a[0]] + a[1..] && b == [b[0]] + b[1..];
    }
  }

  /** Any first n of the ranking come before every entry that shares a token and is left out. */
  lemma TakenIsTop(text: set<string>, library: seq<Entry>, ranked: seq<Ranked>, n: nat)
    requires Ranking(text, library, ranked) && n <= |ranked|
    ensures TopOverlaps(text, library, ranked[..n])
  {
    hide Overlap;
    var chosen := ranked[..n];
    forall l, j | 0 <= l < |library| && Overlap(text, library[l].tokens) > 0.0 &&
        ScoredEntry(text, library, false, l) !in chosen && 0 <= j < |chosen|
      ensures Before(chosen[j], ScoredEntry(text, library, false, l))
    {
      var r := ScoredEntry(text, library, false, l);
      var i :| 0 <= i < |ranked| && ranked[i] == r;
    }
  }
}
