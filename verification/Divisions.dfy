/** Division-level data: grouping divisions by section, splitting a section's output over its
    divisions with rounding, and the consistency check run before anything is written. */
module Divisions {
  import opened Rounding
  import opened Sorting
  import opened Options

  datatype Division = Division(code: string, section: string, name: string)

  /** The fixed tables the build starts from. */
  datatype Tables = Tables(
    divisions: seq<Division>, inactive: set<string>, outputs: map<string, real>,
    weights: map<string, real>)

  predicate Active(t: Tables, d: Division) {
    d.code !in t.inactive
  }

  /** Every active division's section has an output; the build raises KeyError otherwise. */
  predicate OutputsKnown(t: Tables) {
    forall k :: 0 <= k < |t.divisions| && Active(t, t.divisions[k]) ==> t.divisions[k].section in t.outputs
  }

  // ---------- the concordance ----------

  /** The codes of a section's active divisions, in table order. */
  function CodesOf(t: Tables, divisions: seq<Division>, section: string): seq<string> {
    if divisions == [] then [] else
      var m := |divisions| - 1;
      CodesOf(t, divisions[..m], section) +
      if Active(t, divisions[m]) && divisions[m].section == section then [divisions[m].code] else []
  }

  function Lookup(m: map<string, seq<string>>, s: string): seq<string> {
    if s in m then m[s] else []
  }

  lemma {:induction false} CodesAppend(t: Tables, divisions: seq<Division>, d: Division, s: string)
    ensures CodesOf(t, divisions + [d], s) ==
      CodesOf(t, divisions, s) + if Active(t, d) && d.section == s then [d.code] else []
  {
    assert (divisions + [d])[..|divisions|] == divisions;
  }

  /** What the map holds after reading the first divisions. */
  ghost predicate Grouped(t: Tables, divisions: seq<Division>, m: map<string, seq<string>>) {
    forall s: string :: Lookup(m, s) == CodesOf(t, divisions, s)
  }

  lemma GroupedNext(t: Tables, divisions: seq<Division>, d: Division, m: map<string, seq<string>>)
    requires Grouped(t, divisions, m)
    ensures !Active(t, d) ==> Grouped(t, divisions + [d], m)
    ensures Active(t, d) ==> Grouped(t, divisions + [d], m[d.section := Lookup(m, d.section) + [d.code]])
  {
    hide CodesOf;
    forall s: string ensures CodesOf(t, divisions + [d], s) ==
      Lookup(m, s) + if Active(t, d) && d.section == s then [d.code] else [] {
      CodesAppend(t, divisions, d, s);
    }
  }

  method GroupBySection(t: Tables) returns (sectionDivs: map<string, seq<string>>)
    ensures Grouped(t, t.divisions, sectionDivs)
  {
    sectionDivs := map[];
    assert Grouped(t, t.divisions[..0], sectionDivs);
    hide Grouped;
    for k := 0 to |t.divisions|
      invariant Grouped(t, t.divisions[..k], sectionDivs)
    {
      var d := t.divisions[k];
      assert t.divisions[..k + 1] == t.divisions[..k] + [d];
      GroupedNext(t, t.divisions[..k], d, sectionDivs);
      if d.code in t.inactive {
        continue;
      }
      sectionDivs := sectionDivs[d.section := Lookup(sectionDivs, d.section) + [d.code]];
    }
    assert t.divisions[..|t.divisions|] == t.divisions;
  }

  datatype Mapping = Mapping(section: string, codes: seq<string>)

  /** One mapping for each known section, in the order given, holding its active divisions in
      ascending order. */
  predicate Concordance(t: Tables, order: seq<string>, mappings: seq<Mapping>) {
    |mappings| == |order| &&
    forall k :: 0 <= k < |order| ==>
      mappings[k].section == order[k] && Ascending(mappings[k].codes) &&
      multiset(mappings[k].codes) == multiset(CodesOf(t, t.divisions, order[k]))
  }

  lemma NoMappings(t: Tables)
    ensures Concordance(t, [], [])
  {
  }

  lemma {:induction false} ConcordanceAppend(t: Tables, order: seq<string>, mappings: seq<Mapping>, s: string, codes: seq<string>)
    requires Concordance(t, order, mappings) && Ascending(codes)
    requires multiset(codes) == multiset(CodesOf(t, t.divisions, s))
    ensures Concordance(t, order + [s], mappings + [Mapping(s, codes)])
  {
    hide CodesOf, Ascending;
  }

  /** `sections` are the known sections, in the order of their table; each has one entry there. */
  method BuildConcordance(t: Tables, sections: seq<string>) returns (mappings: seq<Mapping>)
    ensures Concordance(t, Sorted(sections), mappings)
  {
    hide CodesOf, Concordance, Sorted, Ascending;
    NoMappings(t);
    var sectionDivs := GroupBySection(t);
    var order := Sorted(sections);
    mappings := [];
    for k := 0 to |order|
      invariant Concordance(t, order[..k], mappings)
    {
      var divs := Lookup(sectionDivs, order[k]);
      SortedIs(divs);
      ConcordanceAppend(t, order[..k], mappings, order[k], Sorted(divs));
      assert order[..k + 1] == order[..k] + [order[k]];
      mappings := mappings + [Mapping(order[k], Sorted(divs))];
    }
    assert order[..|order|] == order;
  }

  /** Tables and sections determine the concordance. */
  lemma ConcordanceUnique(t: Tables, order: seq<string>, a: seq<Mapping>, b: seq<Mapping>)
    requires Concordance(t, order, a) && Concordance(t, order, b)
    ensures a == b
  {
    hide CodesOf, Ascending;
    forall k | 0 <= k < |order| ensures a[k] == b[k] {
      AscendingUnique(a[k].codes, b[k].codes);
    }
  }

  /** All the codes of a concordance, with repetitions. */
  function AllCodes(mappings: seq<Mapping>): multiset<string> {
    if mappings == [] then multiset{} else
      AllCodes(mappings[..|mappings| - 1]) + multiset(mappings[|mappings| - 1].codes)
  }

  /** The codes of the active divisions, with repetitions. */
  function ActiveCodes(t: Tables, divisions: seq<Division>): multiset<string> {
    if divisions == [] then multiset{} else
      var m := |divisions| - 1;
      ActiveCodes(t, divisions[..m]) + if Active(t, divisions[m]) then multiset{divisions[m].code} else multiset{}
  }

  /** The same, for the divisions whose section is among those listed. */
  function ActiveCodesIn(t: Tables, divisions: seq<Division>, order: seq<string>): multiset<string> {
    if divisions == [] then multiset{} else
      var m := |divisions| - 1;
      ActiveCodesIn(t, divisions[..m], order) +
      if Active(t, divisions[m]) && divisions[m].section in order
      then multiset{divisions[m].code} else multiset{}
  }

  lemma {:induction false} OneMoreSection(t: Tables, divisions: seq<Division>, order: seq<string>, s: string)
    requires s !in order
    ensures ActiveCodesIn(t, divisions, order + [s]) ==
      ActiveCodesIn(t, divisions, order) + multiset(CodesOf(t, divisions, s))
  {
    if divisions != [] {
      OneMoreSection(t, divisions[..|divisions| - 1], order, s);
    }
  }

  lemma {:induction false} NoSections(t: Tables, divisions: seq<Division>)
    ensures ActiveCodesIn(t, divisions, []) == multiset{}
  {
    if divisions != [] {
      NoSections(t, divisions[..|divisions| - 1]);
    }
  }

  /** The concordance holds each active division of a listed section exactly once per table entry. */
  lemma {:induction false} ConcordancePlaces(t: Tables, order: seq<string>, mappings: seq<Mapping>)
    requires Distinct(order) && Concordance(t, order, mappings)
    ensures AllCodes(mappings) == ActiveCodesIn(t, t.divisions, order)
  {
    hide Ascending;
    if order == [] {
      NoSections(t, t.divisions);
    } else {
      var m := |order| - 1;
      ShorterConcordance(t, order, mappings, m);
      ConcordancePlaces(t, order[..m], mappings[..m]);
      hide ActiveCodesIn, CodesOf, Concordance;
      OneMoreSection(t, t.divisions, order[..m], order[m]);
      assert order == order[..m] + [order[m]];
    }
  }

  lemma {:induction false} ShorterConcordance(t: Tables, order: seq<string>, mappings: seq<Mapping>, m: nat)
    requires Concordance(t, order, mappings) && Distinct(order) && |order| == m + 1
    ensures Concordance(t, order[..m], mappings[..m]) && Distinct(order[..m]) && order[m] !in order[..m]
    ensures |mappings| == m + 1
    ensures multiset(mappings[m].codes) == multiset(CodesOf(t, t.divisions, order[m]))
  {
    hide CodesOf, Ascending;
  }

  predicate SectionsKnown(t: Tables, divisions: seq<Division>, order: seq<string>) {
    forall k :: 0 <= k < |divisions| && Active(t, divisions[k]) ==> divisions[k].section in order
  }

  lemma {:induction false} KnownSectionsBySize(t: Tables, divisions: seq<Division>, order: seq<string>)
    ensures ActiveCodesIn(t, divisions, order) <= ActiveCodes(t, divisions)
    ensures SectionsKnown(t, divisions, order) <==>
      |ActiveCodesIn(t, divisions, order)| == |ActiveCodes(t, divisions)|
  {
    if divisions != [] {
      var m := |divisions| - 1;
      KnownSectionsBySize(t, divisions[..m], order);
      SmallerPart(ActiveCodesIn(t, divisions[..m], order), ActiveCodes(t, divisions[..m]));
      OneMoreKnown(t, divisions, order, m);
      hide SectionsKnown, Active;
    }
  }

  lemma OneMoreKnown(t: Tables, divisions: seq<Division>, order: seq<string>, m: nat)
    requires |divisions| == m + 1
    ensures SectionsKnown(t, divisions, order) <==>
      SectionsKnown(t, divisions[..m], order) && (Active(t, divisions[m]) ==> divisions[m].section in order)
  {
    hide Active;
    assert divisions == divisions[..m] + [divisions[m]];
  }

  lemma SmallerPart(a: multiset<string>, b: multiset<string>)
    requires a <= b
    ensures |a| <= |b| && (|a| == |b| ==> a == b)
  {
    assert b == a + (b - a);
  }

  /** The listed sections cover every active division exactly when the concordance loses none. */
  lemma {:induction false} KnownSectionsExactly(t: Tables, divisions: seq<Division>, order: seq<string>)
    ensures SectionsKnown(t, divisions, order) <==>
      ActiveCodesIn(t, divisions, order) == ActiveCodes(t, divisions)
  {
    KnownSectionsBySize(t, divisions, order);
    SmallerPart(ActiveCodesIn(t, divisions, order), ActiveCodes(t, divisions));
  }

  // ---------- the output weights ----------

  datatype Weighted = Weighted(code: string, section: string, totalOutput: int)

  function WeightOf(t: Tables, code: string): real {
    if code in t.weights then t.weights[code] else 0.0
  }

  /** A share of an output in millions, rounded, in thousands. */
  function Share(output: real, weight: real): int {
    RoundInt(output * weight) * 1000
  }

  function OutputOf(t: Tables, d: Division): int
    requires d.section in t.outputs
  {
    Share(t.outputs[d.section], WeightOf(t, d.code))
  }

  /** The active divisions with their outputs, in table order. */
  function WeightedUpTo(t: Tables, n: nat): (w: seq<Weighted>)
    requires OutputsKnown(t) && n <= |t.divisions|
  {
    if n == 0 then [] else
      var d := t.divisions[n - 1];
      WeightedUpTo(t, n - 1) +
      if Active(t, d) then [Weighted(d.code, d.section, OutputOf(t, d))] else []
  }

  method BuildWeights(t: Tables) returns (divisions: seq<Weighted>)
    requires OutputsKnown(t)
    ensures divisions == WeightedUpTo(t, |t.divisions|)
    ensures RowsFor(t, |t.divisions|, divisions)
  {
    hide Share, WeightOf;
    divisions := [];
    for k := 0 to |t.divisions|
      invariant divisions == WeightedUpTo(t, k)
    {
      var d := t.divisions[k];
      if d.code in t.inactive {
        assert divisions + [] == divisions;
        continue;
      }
      var weight := WeightOf(t, d.code);
      divisions := divisions + [Weighted(d.code, d.section, Share(t.outputs[d.section], weight))];
    }
    WeightsAre(t, |t.divisions|);
  }

  // ---------- the output weights in terms of the tables ----------

  /** The positions, among the first n divisions, of those that are not inactive. */
  function ActivePositions(t: Tables, n: nat): set<nat>
    requires n <= |t.divisions|
  {
    set k: nat | k < n && t.divisions[k].code !in t.inactive
  }

  predicate RoundedProduct(z: int, a: real, b: real) {
    NearestInt(z as real, a * b)
  }

  /** The row of a division: its section's output times its own weight, to the nearest million (the
      even one of two), in thousands; 0 without a weight. */
  predicate OutputRow(t: Tables, d: Division, w: Weighted)
    requires d.section in t.outputs
  {
    w.code == d.code && w.section == d.section && w.totalOutput % 1000 == 0 &&
    if d.code in t.weights
    then RoundedProduct(w.totalOutput / 1000, t.outputs[d.section], t.weights[d.code])
    else w.totalOutput == 0
  }

  lemma ShareIs(output: real, weight: real)
    ensures var share := Share(output, weight);
      share % 1000 == 0 && RoundedProduct(share / 1000, output, weight)
  {
    var r := output * weight;
    ThousandTimes(RoundInt(r));
    NearestIntIs(RoundInt(r) as real, r);
  }

  lemma NoShare(output: real)
    ensures Share(output, 0.0) == 0
  {
    assert output * 0.0 == 0.0;
    RoundIntExact(0);
  }

  lemma ThousandTimes(z: int)
    ensures z * 1000 % 1000 == 0 && z * 1000 / 1000 == z
  {
  }

  lemma OutputRowIs(t: Tables, d: Division)
    requires d.section in t.outputs
    ensures OutputRow(t, d, Weighted(d.code, d.section, OutputOf(t, d)))
  {
    hide Share, RoundedProduct;
    if d.code in t.weights {
      ShareIs(t.outputs[d.section], t.weights[d.code]);
    } else {
      NoShare(t.outputs[d.section]);
    }
  }

  /** One row for each active division among the first n, in table order. */
  predicate RowsFor(t: Tables, n: nat, rows: seq<Weighted>)
    requires OutputsKnown(t) && n <= |t.divisions|
  {
    |rows| == |ActivePositions(t, n)| &&
    forall k :: k in ActivePositions(t, n) ==>
      |ActivePositions(t, k)| < |rows| && OutputRow(t, t.divisions[k], rows[|ActivePositions(t, k)|])
  }

  lemma OneMorePosition(t: Tables, n: nat)
    requires 0 < n <= |t.divisions|
    ensures ActivePositions(t, n) ==
      ActivePositions(t, n - 1) + if Active(t, t.divisions[n - 1]) then {n - 1} else {}
    ensures n - 1 !in ActivePositions(t, n - 1)
  {
  }

  lemma RowsForNext(t: Tables, n: nat, rows: seq<Weighted>)
    requires OutputsKnown(t) && n < |t.divisions| && RowsFor(t, n, rows)
    ensures !Active(t, t.divisions[n]) ==> RowsFor(t, n + 1, rows)
    ensures Active(t, t.divisions[n]) ==> var d := t.divisions[n];
      RowsFor(t, n + 1, rows + [Weighted(d.code, d.section, OutputOf(t, d))])
  {
    hide ActivePositions, OutputRow, OutputOf;
    OneMorePosition(t, n + 1);
    if Active(t, t.divisions[n]) {
      OutputRowIs(t, t.divisions[n]);
    }
  }

  lemma NoRows(t: Tables)
    requires OutputsKnown(t)
    ensures RowsFor(t, 0, [])
  {
    hide OutputRow;
    assert ActivePositions(t, 0) == {};
  }

  lemma {:induction false} WeightsAre(t: Tables, n: nat)
    requires OutputsKnown(t) && n <= |t.divisions|
    ensures RowsFor(t, n, WeightedUpTo(t, n))
  {
    hide RowsFor, OutputOf;
    if n == 0 {
      NoRows(t);
    } else {
      var before := WeightedUpTo(t, n - 1);
      WeightsAre(t, n - 1);
      RowsForNext(t, n - 1, before);
      assert before + [] == before;
    }
  }

  /** The total output given to a section, the number of its divisions and their total weight. */
  function SectionOutput(w: seq<Weighted>, s: string): int {
    if w == [] then 0 else
      var m := |w| - 1;
      SectionOutput(w[..m], s) + if w[m].section == s then w[m].totalOutput else 0
  }

  function SectionCount(w: seq<Weighted>, s: string): nat {
    if w == [] then 0 else
      var m := |w| - 1;
      SectionCount(w[..m], s) + if w[m].section == s then 1 else 0
  }

  function SectionWeight(t: Tables, w: seq<Weighted>, s: string): real {
    if w == [] then 0.0 else
      var m := |w| - 1;
      SectionWeight(t, w[..m], s) + if w[m].section == s then WeightOf(t, w[m].code) else 0.0
  }

  lemma {:induction false} SectionAppend(t: Tables, w: seq<Weighted>, x: Weighted, s: string)
    ensures SectionOutput(w + [x], s) == SectionOutput(w, s) + if x.section == s then x.totalOutput else 0
    ensures SectionCount(w + [x], s) == SectionCount(w, s) + if x.section == s then 1 else 0
    ensures SectionWeight(t, w + [x], s) ==
      SectionWeight(t, w, s) + if x.section == s then WeightOf(t, x.code) else 0.0
  {
    hide WeightOf;
    assert (w + [x])[..|w|] == w;
  }

  /** |total - 1000 a b| <= 500 n */
  predicate Within(total: int, a: real, b: real, n: nat) {
    1000.0 * (a * b) - 500.0 * n as real <= total as real <= 1000.0 * (a * b) + 500.0 * n as real
  }

  lemma OneMoreRounded(total: int, a: real, b: real, n: nat, weight: real)
    requires Within(total, a, b, n)
    ensures Within(total + Share(a, weight), a, b + weight, n + 1)
  {
    var r := a * weight;
    var z := RoundInt(r);
    hide RoundInt;
    assert a * (b + weight) == a * b + r;
    assert (z * 1000) as real == 1000.0 * z as real;
  }

  /** Disaggregation conserves a section's output up to rounding: the n division outputs of a
      section differ from 1000 times its output times its total weight by at most 500 n. */
  lemma {:induction false} OutputConserved(t: Tables, n: nat, s: string)
    requires OutputsKnown(t) && n <= |t.divisions| && s in t.outputs
    ensures var w := WeightedUpTo(t, n);
      Within(SectionOutput(w, s), t.outputs[s], SectionWeight(t, w, s), SectionCount(w, s))
  {
    hide Share, WeightOf, Within, SectionOutput, SectionWeight, SectionCount;
    if n == 0 {
      NothingYet(t, t.outputs[s], s);
    } else {
      var d, before := t.divisions[n - 1], WeightedUpTo(t, n - 1);
      OutputConserved(t, n - 1, s);
      if Active(t, d) && d.section == s {
        SectionAppend(t, before, Weighted(d.code, d.section, OutputOf(t, d)), s);
        OneMoreRounded(SectionOutput(before, s), t.outputs[s], SectionWeight(t, before, s),
          SectionCount(before, s), WeightOf(t, d.code));
      } else if Active(t, d) {
        SectionAppend(t, before, Weighted(d.code, d.section, OutputOf(t, d)), s);
      } else {
        assert before + [] == before;
      }
    }
  }

  lemma {:induction false} NothingYet(t: Tables, a: real, s: string)
    ensures Within(SectionOutput([], s), a, SectionWeight(t, [], s), SectionCount([], s))
  {
  }

  /** The weights of a section's active divisions, added up over the tables. */
  function TableWeight(t: Tables, n: nat, s: string): real
    requires n <= |t.divisions|
  {
    if n == 0 then 0.0 else
      var d := t.divisions[n - 1];
      TableWeight(t, n - 1, s) +
      if d.section == s && d.code !in t.inactive && d.code in t.weights then t.weights[d.code] else 0.0
  }

  lemma {:induction false} TableWeightIs(t: Tables, n: nat, s: string)
    requires OutputsKnown(t) && n <= |t.divisions|
    ensures SectionWeight(t, WeightedUpTo(t, n), s) == TableWeight(t, n, s)
  {
    hide SectionWeight, OutputOf;
    if n == 0 {
      NoWeight(t, s);
    } else {
      var d, before := t.divisions[n - 1], WeightedUpTo(t, n - 1);
      TableWeightIs(t, n - 1, s);
      if Active(t, d) {
        SectionAppend(t, before, Weighted(d.code, d.section, OutputOf(t, d)), s);
      } else {
        assert before + [] == before;
      }
    }
  }

  lemma {:induction false} NoWeight(t: Tables, s: string)
    ensures SectionWeight(t, [], s) == 0.0
  {
  }

  /** Where the weights of a section's active divisions add up to 1, its n outputs add up to its own,
      in thousands, within 500 n. */
  lemma {:induction false} SectionSplitUp(t: Tables, s: string)
    requires OutputsKnown(t) && s in t.outputs && TableWeight(t, |t.divisions|, s) == 1.0
    ensures var w := WeightedUpTo(t, |t.divisions|);
      1000.0 * t.outputs[s] - 500.0 * SectionCount(w, s) as real <= SectionOutput(w, s) as real <=
      1000.0 * t.outputs[s] + 500.0 * SectionCount(w, s) as real
  {
    hide WeightedUpTo, TableWeight, SectionOutput, SectionCount, SectionWeight;
    OutputConserved(t, |t.divisions|, s);
    TableWeightIs(t, |t.divisions|, s);
  }

  // ---------- the check before writing ----------

  function SetOf(s: seq<string>): set<string> {
    set c | c in s
  }

  function CodeSet(mappings: seq<Mapping>): set<string> {
    if mappings == [] then {} else
      CodeSet(mappings[..|mappings| - 1]) + SetOf(mappings[|mappings| - 1].codes)
  }

  function ActiveCount(t: Tables, divisions: seq<Division>): nat {
    if divisions == [] then 0 else
      var m := |divisions| - 1;
      ActiveCount(t, divisions[..m]) + if Active(t, divisions[m]) then 1 else 0
  }

  function Codes(divisions: seq<Division>): (c: seq<string>)
    ensures |c| == |divisions| && forall k :: 0 <= k < |c| ==> c[k] == divisions[k].code
  {
    seq(|divisions|, k requires 0 <= k < |divisions| => divisions[k].code)
  }

  function WeightCodes(w: seq<Weighted>): (c: seq<string>)
    ensures |c| == |w| && forall k :: 0 <= k < |c| ==> c[k] == w[k].code
  {
    seq(|w|, k requires 0 <= k < |w| => w[k].code)
  }

  const TOTAL_DIVISIONS := 97
  const ACTIVE_DIVISIONS := 84

  predicate Named(t: Tables, n: nat) {
    n <= |t.divisions| &&
    forall k :: 0 <= k < n && Active(t, t.divisions[k]) ==> t.divisions[k].name != ""
  }

  /** The errors the check looks for are absent. (Weights that do not add up only draw a warning.) */
  predicate CountsAgree(t: Tables, conc: set<string>, weightCodes: set<string>) {
    |t.divisions| == TOTAL_DIVISIONS && ActiveCount(t, t.divisions) == ACTIVE_DIVISIONS &&
    |conc| == ACTIVE_DIVISIONS && |weightCodes| == ACTIVE_DIVISIONS && conc == weightCodes &&
    |SetOf(Codes(t.divisions))| == |t.divisions|
  }

  method Validate(t: Tables, mappings: seq<Mapping>, weights: seq<Weighted>) returns (ok: bool)
    ensures ok <==> CountsAgree(t, CodeSet(mappings), SetOf(WeightCodes(weights))) && Named(t, |t.divisions|)
  {
    hide SetOf, ActiveCount, Active;
    ok := true;
    if |t.divisions| != TOTAL_DIVISIONS {
      ok := false;
    }
    if ActiveCount(t, t.divisions) != ACTIVE_DIVISIONS {
      ok := false;
    }
    var concDivs: set<string> := {};
    for k := 0 to |mappings|
      invariant concDivs == CodeSet(mappings[..k])
    {
      assert mappings[..k + 1][..k] == mappings[..k];
      concDivs := concDivs + SetOf(mappings[k].codes);
    }
    assert mappings[..|mappings|] == mappings;
    if |concDivs| != ACTIVE_DIVISIONS {
      ok := false;
    }
    var weightCodes := SetOf(WeightCodes(weights));
    if |weightCodes| != ACTIVE_DIVISIONS {
      ok := false;
    }
    if concDivs != weightCodes {
      ok := false;
    }
    if |t.divisions| != |SetOf(Codes(t.divisions))| {
      ok := false;
    }
    ghost var agree := ok;
    for k := 0 to |t.divisions|
      invariant ok <==> agree && Named(t, k)
    {
      if Active(t, t.divisions[k]) && t.divisions[k].name == "" {
        ok := false;
      }
    }
  }

  // ---------- the check is exact ----------

  lemma {:induction false} SetSize(s: seq<string>)
    ensures |SetOf(s)| <= |s|
    ensures |SetOf(s)| == |s| <==> Distinct(s)
  {
    if s != [] {
      var m := |s| - 1;
      SetSize(s[..m]);
      assert s == s[..m] + [s[m]];
      assert SetOf(s) == SetOf(s[..m]) + {s[m]};
      if s[m] in s[..m] {
        var k :| 0 <= k < m && s[k] == s[m];
      } else {
        assert Distinct(s) <==> Distinct(s[..m]);
      }
    }
  }

  lemma {:induction false} CodeSetIs(mappings: seq<Mapping>)
    ensures forall c :: c in CodeSet(mappings) <==> c in AllCodes(mappings)
  {
    if mappings != [] {
      CodeSetIs(mappings[..|mappings| - 1]);
    }
  }

  /** Some active division among the first carries this code (and a listed section). */
  predicate Carried(t: Tables, divisions: seq<Division>, c: string) {
    exists k :: 0 <= k < |divisions| && Active(t, divisions[k]) && divisions[k].code == c
  }

  predicate CarriedIn(t: Tables, divisions: seq<Division>, order: seq<string>, c: string) {
    exists k :: 0 <= k < |divisions| && Active(t, divisions[k]) && divisions[k].code == c &&
      divisions[k].section in order
  }

  lemma {:induction false} InActiveCodes(t: Tables, divisions: seq<Division>, c: string)
    ensures c in ActiveCodes(t, divisions) <==> Carried(t, divisions, c)
  {
    hide Active;
    if divisions != [] {
      var m := |divisions| - 1;
      InActiveCodes(t, divisions[..m], c);
      assert divisions == divisions[..m] + [divisions[m]];
      assert Carried(t, divisions, c) <==>
        Carried(t, divisions[..m], c) || (Active(t, divisions[m]) && divisions[m].code == c);
    }
  }

  lemma {:induction false} InActiveCodesIn(t: Tables, divisions: seq<Division>, order: seq<string>, c: string)
    ensures c in ActiveCodesIn(t, divisions, order) <==> CarriedIn(t, divisions, order, c)
  {
    hide Active;
    if divisions != [] {
      var m := |divisions| - 1;
      InActiveCodesIn(t, divisions[..m], order, c);
      OneMoreCarriedIn(t, divisions, order, c, m);
      hide CarriedIn;
    }
  }

  lemma OneMoreCarriedIn(t: Tables, divisions: seq<Division>, order: seq<string>, c: string, m: nat)
    requires |divisions| == m + 1
    ensures CarriedIn(t, divisions, order, c) <==>
      CarriedIn(t, divisions[..m], order, c) ||
      (Active(t, divisions[m]) && divisions[m].code == c && divisions[m].section in order)
  {
    hide Active;
    assert divisions == divisions[..m] + [divisions[m]];
  }

  lemma {:induction false} WeightedCodes(t: Tables, n: nat)
    requires OutputsKnown(t) && n <= |t.divisions|
    ensures multiset(WeightCodes(WeightedUpTo(t, n))) == ActiveCodes(t, t.divisions[..n])
    ensures |WeightedUpTo(t, n)| == ActiveCount(t, t.divisions[..n])
  {
    hide OutputOf, ActiveCodes, ActiveCount;
    if n == 0 {
      NoneActive(t);
    } else {
      var d, before := t.divisions[n - 1], WeightedUpTo(t, n - 1);
      WeightedCodes(t, n - 1);
      assert t.divisions[..n] == t.divisions[..n - 1] + [d];
      OneMoreActive(t, t.divisions[..n - 1], d);
      if Active(t, d) {
        assert WeightCodes(WeightedUpTo(t, n)) == WeightCodes(before) + [d.code];
      } else {
        assert WeightedUpTo(t, n) == before;
      }
    }
  }

  lemma {:induction false} NoneActive(t: Tables)
    ensures ActiveCodes(t, []) == multiset{} && ActiveCount(t, []) == 0
  {
  }

  lemma {:induction false} OneMoreActive(t: Tables, divisions: seq<Division>, d: Division)
    ensures ActiveCodes(t, divisions + [d]) ==
      ActiveCodes(t, divisions) + if Active(t, d) then multiset{d.code} else multiset{}
    ensures ActiveCount(t, divisions + [d]) == ActiveCount(t, divisions) + if Active(t, d) then 1 else 0
  {
    assert (divisions + [d])[..|divisions|] == divisions;
  }

  lemma {:induction false} WeightedDistinct(t: Tables, n: nat)
    requires OutputsKnown(t) && n <= |t.divisions| && Distinct(Codes(t.divisions))
    ensures Distinct(WeightCodes(WeightedUpTo(t, n)))
    ensures forall k :: 0 <= k < |WeightedUpTo(t, n)| ==>
      exists l :: 0 <= l < n && t.divisions[l].code == WeightedUpTo(t, n)[k].code
  {
    hide OutputOf;
    if n > 0 {
      var d, before := t.divisions[n - 1], WeightedUpTo(t, n - 1);
      WeightedDistinct(t, n - 1);
      if Active(t, d) {
        var after := WeightedUpTo(t, n);
        forall k | 0 <= k < |before| ensures after[k].code != d.code {
          var l :| 0 <= l < n - 1 && t.divisions[l].code == before[k].code;
          assert Codes(t.divisions)[l] != Codes(t.divisions)[n - 1];
        }
      } else {
        assert WeightedUpTo(t, n) == before;
      }
    }
  }

  /** The tables are what the check wants them to be. */
  predicate TablesSound(t: Tables, order: seq<string>) {
    |t.divisions| == TOTAL_DIVISIONS && ActiveCount(t, t.divisions) == ACTIVE_DIVISIONS &&
    Distinct(Codes(t.divisions)) && SectionsKnown(t, t.divisions, order) && Named(t, |t.divisions|)
  }

  lemma {:induction false} BuiltCodes(t: Tables, order: seq<string>, mappings: seq<Mapping>, c: string)
    requires OutputsKnown(t) && Distinct(order) && Concordance(t, order, mappings)
    ensures c in CodeSet(mappings) <==> CarriedIn(t, t.divisions, order, c)
    ensures c in SetOf(WeightCodes(WeightedUpTo(t, |t.divisions|))) <==> Carried(t, t.divisions, c)
  {
    hide WeightedUpTo, ActiveCodes, ActiveCodesIn, CodeSet, AllCodes, Concordance, Carried, CarriedIn;
    CodeSetIs(mappings);
    ConcordancePlaces(t, order, mappings);
    InActiveCodes(t, t.divisions, c);
    InActiveCodesIn(t, t.divisions, order, c);
    WeightedCodes(t, |t.divisions|);
    assert t.divisions[..|t.divisions|] == t.divisions;
    var w := WeightCodes(WeightedUpTo(t, |t.divisions|));
    assert c in w <==> c in multiset(w);
  }

  /** On the data built from any tables, the check accepts exactly the sound tables: 97 distinct
      codes of which 84 are active, every active division in a known section and named. */
  lemma {:induction false} ValidationExact(t: Tables, order: seq<string>, mappings: seq<Mapping>)
    requires OutputsKnown(t) && Distinct(order) && Concordance(t, order, mappings)
    ensures CountsAgree(t, CodeSet(mappings), SetOf(WeightCodes(WeightedUpTo(t, |t.divisions|)))) &&
        Named(t, |t.divisions|)
      <==> TablesSound(t, order)
  {
    hide WeightedUpTo, CodeSet, Concordance, Named, ActiveCount, SetOf;
    var n := |t.divisions|;
    var conc, w := CodeSet(mappings), WeightCodes(WeightedUpTo(t, n));
    SetSize(Codes(t.divisions));
    SetSize(w);
    WeightedCodes(t, n);
    assert t.divisions[..n] == t.divisions;
    forall c ensures c in conc <==> CarriedIn(t, t.divisions, order, c)
             ensures c in SetOf(w) <==> Carried(t, t.divisions, c) {
      BuiltCodes(t, order, mappings, c);
    }
    if Distinct(Codes(t.divisions)) {
      WeightedDistinct(t, n);
      if SectionsKnown(t, t.divisions, order) {
        assert conc == SetOf(w);
      } else {
        var k :| 0 <= k < n && Active(t, t.divisions[k]) && t.divisions[k].section !in order;
        var c := t.divisions[k].code;
        assert Carried(t, t.divisions, c);
        assert !CarriedIn(t, t.divisions, order, c) by {
          forall l | 0 <= l < n && t.divisions[l].code == c ensures l == k {
            assert Codes(t.divisions)[l] == Codes(t.divisions)[k];
          }
        }
      }
    }
  }

  lemma {:induction false} ActiveCountNext(t: Tables, n: nat)
    requires 0 < n <= |t.divisions|
    ensures ActiveCount(t, t.divisions[..n]) ==
      ActiveCount(t, t.divisions[..n - 1]) + if Active(t, t.divisions[n - 1]) then 1 else 0
  {
    hide ActiveCount;
    assert t.divisions[..n] == t.divisions[..n - 1] + [t.divisions[n - 1]];
    OneMoreActive(t, t.divisions[..n - 1], t.divisions[n - 1]);
  }

  lemma {:induction false} ActiveCountIs(t: Tables, n: nat)
    requires n <= |t.divisions|
    ensures ActiveCount(t, t.divisions[..n]) == |ActivePositions(t, n)|
  {
    hide ActiveCount, ActivePositions;
    if n == 0 {
      NothingActive(t);
    } else {
      ActiveCountIs(t, n - 1);
      OneMorePosition(t, n);
      ActiveCountNext(t, n);
    }
  }

  lemma {:induction false} NothingActive(t: Tables)
    ensures ActiveCount(t, t.divisions[..0]) == 0 && ActivePositions(t, 0) == {}
  {
  }

  lemma {:induction false} CodeSetMeans(mappings: seq<Mapping>, c: string)
    ensures c in CodeSet(mappings) <==> exists k :: 0 <= k < |mappings| && c in mappings[k].codes
  {
    if mappings != [] {
      var m := |mappings| - 1;
      CodeSetMeans(mappings[..m], c);
      hide CodeSet;
      assert c in mappings[m].codes || c !in mappings[m].codes;
      assert forall k :: 0 <= k < m ==> mappings[..m][k] == mappings[k];
    }
  }

  /** What the check tests, for any mappings and weights: 97 divisions with distinct codes, 84 of them
      active and all of these with a name; 84 mapped codes, 84 weighted codes, and the same ones. */
  lemma {:induction false} CheckMeans(t: Tables, mappings: seq<Mapping>, weights: seq<Weighted>,
      mapped: set<string>, weighted: set<string>)
    requires forall c :: c in mapped <==> exists k :: 0 <= k < |mappings| && c in mappings[k].codes
    requires forall c :: c in weighted <==> exists k :: 0 <= k < |weights| && weights[k].code == c
    ensures CountsAgree(t, CodeSet(mappings), SetOf(WeightCodes(weights))) && Named(t, |t.divisions|) <==>
      |t.divisions| == 97 && |ActivePositions(t, |t.divisions|)| == 84 &&
      (forall k, l :: 0 <= k < l < |t.divisions| ==> t.divisions[k].code != t.divisions[l].code) &&
      (forall k :: 0 <= k < |t.divisions| && t.divisions[k].code !in t.inactive ==> t.divisions[k].name != "") &&
      |mapped| == 84 && |weighted| == 84 && mapped == weighted
  {
    forall c ensures c in mapped <==> c in CodeSet(mappings) {
      CodeSetMeans(mappings, c);
    }
    assert mapped == CodeSet(mappings);
    WeightedSet(weights, weighted);
    ActiveCountIs(t, |t.divisions|);
    assert t.divisions[..|t.divisions|] == t.divisions;
    SetSize(Codes(t.divisions));
    DistinctCodes(t);
    hide ActiveCount, ActivePositions, CodeSet, SetOf, Codes, WeightCodes;
  }

  lemma DistinctCodes(t: Tables)
    ensures Distinct(Codes(t.divisions)) <==>
      forall k, l :: 0 <= k < l < |t.divisions| ==> t.divisions[k].code != t.divisions[l].code
  {
    var codes := Codes(t.divisions);
    assert forall k :: 0 <= k < |t.divisions| ==> codes[k] == t.divisions[k].code;
  }

  lemma WeightedSet(weights: seq<Weighted>, weighted: set<string>)
    requires forall c :: c in weighted <==> exists k :: 0 <= k < |weights| && weights[k].code == c
    ensures weighted == SetOf(WeightCodes(weights))
  {
    var codes := WeightCodes(weights);
    forall c ensures c in weighted <==> c in codes {
      if c in weighted {
        var k :| 0 <= k < |weights| && weights[k].code == c;
        assert codes[k] == c;
      }
    }
  }

  /** Sound tables have 97 distinct codes, 84 of them active, each of those in a known section and with
      a name. */
  lemma SoundMeans(t: Tables, sections: seq<string>)
    ensures TablesSound(t, sections) <==>
      |t.divisions| == 97 && |ActivePositions(t, |t.divisions|)| == 84 &&
      (forall k, l :: 0 <= k < l < |t.divisions| ==> t.divisions[k].code != t.divisions[l].code) &&
      (forall k :: 0 <= k < |t.divisions| && t.divisions[k].code !in t.inactive ==>
        t.divisions[k].section in sections && t.divisions[k].name != "")
  {
    ActiveCountIs(t, |t.divisions|);
    assert t.divisions[..|t.divisions|] == t.divisions;
    DistinctCodes(t);
    hide ActiveCount, ActivePositions, Codes;
  }

  /** The positions of a section's active divisions with this code. */
  function Carrying(t: Tables, n: nat, section: string, code: string): set<nat>
    requires n <= |t.divisions|
  {
    set k: nat | k < n && t.divisions[k].section == section && t.divisions[k].code == code &&
      code !in t.inactive
  }

  lemma {:induction false} CodesNext(t: Tables, n: nat, section: string, code: string)
    requires 0 < n <= |t.divisions|
    ensures var d := t.divisions[n - 1];
      multiset(CodesOf(t, t.divisions[..n], section))[code] ==
      multiset(CodesOf(t, t.divisions[..n - 1], section))[code] +
        if d.section == section && d.code == code && Active(t, d) then 1 else 0
  {
    hide CodesOf;
    assert t.divisions[..n] == t.divisions[..n - 1] + [t.divisions[n - 1]];
    CodesAppend(t, t.divisions[..n - 1], t.divisions[n - 1], section);
  }

  lemma {:induction false} CodesAre(t: Tables, n: nat, section: string, code: string)
    requires n <= |t.divisions|
    ensures multiset(CodesOf(t, t.divisions[..n], section))[code] == |Carrying(t, n, section, code)|
  {
    hide CodesOf, Carrying;
    if n == 0 {
      NothingCarried(t, section, code);
    } else {
      CodesAre(t, n - 1, section, code);
      CodesNext(t, n, section, code);
      OneMoreCarrying(t, n, section, code);
    }
  }

  lemma {:induction false} NothingCarried(t: Tables, section: string, code: string)
    ensures CodesOf(t, t.divisions[..0], section) == [] && Carrying(t, 0, section, code) == {}
  {
  }

  lemma OneMoreCarrying(t: Tables, n: nat, section: string, code: string)
    requires 0 < n <= |t.divisions|
    ensures var d := t.divisions[n - 1];
      Carrying(t, n, section, code) == Carrying(t, n - 1, section, code) +
        if d.section == section && d.code == code && Active(t, d) then {n - 1} else {}
    ensures n - 1 !in Carrying(t, n - 1, section, code)
  {
  }

  /** Each mapping lists a code as often as its section has an active division with it. */
  lemma MappingsAre(t: Tables, order: seq<string>, mappings: seq<Mapping>, k: nat, code: string)
    requires Concordance(t, order, mappings) && k < |order|
    ensures |mappings| == |order| && mappings[k].section == order[k]
    ensures multiset(mappings[k].codes)[code] == |Carrying(t, |t.divisions|, order[k], code)|
  {
    hide CodesOf, Ascending;
    CodesAre(t, |t.divisions|, order[k], code);
    assert t.divisions[..|t.divisions|] == t.divisions;
  }

  datatype Built = Built(mappings: seq<Mapping>, weights: seq<Weighted>, accepted: bool)

  /** The whole build. None is the KeyError of an active division whose section has no output; any
      other tables are built, and accepted exactly when they are sound. */
  method Build(t: Tables, sections: seq<string>) returns (r: Option<Built>)
    requires Distinct(sections)
    ensures r.Some? <==> OutputsKnown(t)
    ensures r.Some? ==>
      (Concordance(t, Sorted(sections), r.value.mappings) &&
       r.value.weights == WeightedUpTo(t, |t.divisions|) &&
       RowsFor(t, |t.divisions|, r.value.weights) &&
       (r.value.accepted <==> TablesSound(t, sections)))
  {
    hide Concordance, WeightedUpTo, CountsAgree, Named, Sorted, Ascending, ActiveCount, RowsFor;
    var mappings := BuildConcordance(t, sections);
    if !OutputsKnown(t) {
      return None;
    }
    var weights := BuildWeights(t);
    var accepted := Validate(t, mappings, weights);
    SortedDistinct(sections);
    ValidationExact(t, Sorted(sections), mappings);
    r := Some(Built(mappings, weights, accepted));
  }
}
