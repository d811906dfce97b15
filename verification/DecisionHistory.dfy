/** Mapping decisions as an append-only list of rows: the latest row and the history of a line item,
    and what a put and a bulk approval append. */
module DecisionHistory {
  import opened Options
  import opened Strings

  datatype MappingState =
    Unmapped | AiSuggested | Approved | Overridden | ManagerReview | Excluded | Locked

  datatype Row = Row(
    compilation: nat, item: nat, state: MappingState,
    suggestedCode: Option<string>, confidence: Option<real>, finalCode: Option<string>,
    decisionType: Option<string>, note: Option<string>, decidedBy: nat)

  /** Which states may follow which; a state without an entry may be followed by none. */
  type Transitions = map<MappingState, set<MappingState>>

  predicate Allowed(table: Transitions, a: MappingState, b: MappingState) {
    a in table && b in table[a]
  }

  predicate Of(r: Row, c: nat, i: nat) {
    r.compilation == c && r.item == i
  }

  /** The rows of one line item, oldest first. */
  function History(rows: seq<Row>, c: nat, i: nat): seq<Row> {
    if rows == [] then [] else
      var m := |rows| - 1;
      History(rows[..m], c, i) + if Of(rows[m], c, i) then [rows[m]] else []
  }

  function Latest(rows: seq<Row>, c: nat, i: nat): Option<Row> {
    var h := History(rows, c, i);
    if h == [] then None else Some(h[|h| - 1])
  }

  lemma {:induction false} HistoryConcat(a: seq<Row>, b: seq<Row>, c: nat, i: nat)
    ensures History(a + b, c, i) == History(a, c, i) + History(b, c, i)
  {
    if b == [] {
      assert a + b == a;
    } else {
      assert (a + b)[..|a + b| - 1] == a + b[..|b| - 1];
      HistoryConcat(a, b[..|b| - 1], c, i);
    }
  }

  lemma {:induction false} HistoryAppend(a: seq<Row>, r: Row, c: nat, i: nat)
    ensures History(a + [r], c, i) == History(a, c, i) + if Of(r, c, i) then [r] else []
  {
  }

  lemma {:induction false} HistoryPrepend(r: Row, b: seq<Row>, c: nat, i: nat)
    ensures History([r] + b, c, i) == (if Of(r, c, i) then [r] else []) + History(b, c, i)
  {
    HistoryConcat([r], b, c, i);
    HistoryAppend([], r, c, i);
    assert [] + [r] == [r];
  }

  lemma LatestConcat(a: seq<Row>, b: seq<Row>, c: nat, i: nat)
    ensures Latest(a + b, c, i) == if Latest(b, c, i).Some? then Latest(b, c, i) else Latest(a, c, i)
  {
    HistoryConcat(a, b, c, i);
  }

  /** The latest row is the last one of the line item, and there is none exactly when the item has no
      rows. */
  lemma {:induction false} LatestMeans(rows: seq<Row>, c: nat, i: nat)
    ensures Latest(rows, c, i).None? <==>
      forall k :: 0 <= k < |rows| ==> !(rows[k].compilation == c && rows[k].item == i)
    ensures Latest(rows, c, i).Some? ==>
      exists k :: 0 <= k < |rows| && rows[k] == Latest(rows, c, i).value &&
        rows[k].compilation == c && rows[k].item == i &&
        forall l :: k < l < |rows| ==> !(rows[l].compilation == c && rows[l].item == i)
  {
    hide History;
    if rows == [] {
      NoHistory(c, i);
    } else {
      var m := |rows| - 1;
      LatestStep(rows, c, i, m);
      hide Latest;
      if !(rows[m].compilation == c && rows[m].item == i) {
        LatestMeans(rows[..m], c, i);
        assert forall k :: 0 <= k < m ==> rows[..m][k] == rows[k];
      }
    }
  }

  lemma {:induction false} NoHistory(c: nat, i: nat)
    ensures History([], c, i) == []
  {
  }

  lemma LatestStep(rows: seq<Row>, c: nat, i: nat, m: nat)
    requires |rows| == m + 1
    ensures Latest(rows, c, i) == if Of(rows[m], c, i) then Some(rows[m]) else Latest(rows[..m], c, i)
  {
  }

  /** The positions of a line item's rows. */
  function RowsOf(rows: seq<Row>, c: nat, i: nat): set<nat> {
    set k: nat | k < |rows| && rows[k].compilation == c && rows[k].item == i
  }

  /** The history holds each of them, in order, and nothing else. */
  lemma {:induction false} HistoryMeans(rows: seq<Row>, c: nat, i: nat)
    ensures |History(rows, c, i)| == |RowsOf(rows, c, i)|
    ensures forall k :: k in RowsOf(rows, c, i) ==>
      |History(rows[..k], c, i)| < |History(rows, c, i)| &&
      History(rows, c, i)[|History(rows[..k], c, i)|] == rows[k]
  {
    if rows != [] {
      var m := |rows| - 1;
      HistoryMeans(rows[..m], c, i);
      OneMoreRowOf(rows, c, i, m);
      assert History(rows, c, i) == History(rows[..m], c, i) + if Of(rows[m], c, i) then [rows[m]] else [];
      hide History, RowsOf;
      forall k | k in RowsOf(rows, c, i) && k != m
        ensures |History(rows[..k], c, i)| < |History(rows, c, i)|
        ensures History(rows, c, i)[|History(rows[..k], c, i)|] == rows[k]
      {
        assert k in RowsOf(rows[..m], c, i);
        assert rows[..m][..k] == rows[..k];
      }
    }
  }

  lemma OneMoreRowOf(rows: seq<Row>, c: nat, i: nat, m: nat)
    requires |rows| == m + 1
    ensures RowsOf(rows, c, i) == RowsOf(rows[..m], c, i) + if Of(rows[m], c, i) then {m} else {}
    ensures forall k :: k in RowsOf(rows[..m], c, i) ==> k < m && rows[..m][k] == rows[k]
  {
  }

  // ---------- paths ----------

  /** Consecutive rows follow the transition table. */
  predicate Path(table: Transitions, h: seq<Row>) {
    forall k :: 0 <= k < |h| - 1 ==> Allowed(table, h[k].state, h[k + 1].state)
  }

  ghost predicate AllPaths(table: Transitions, rows: seq<Row>) {
    forall c: nat, i: nat :: Path(table, History(rows, c, i))
  }

  /** Every approved or overridden row carries a sector code. */
  predicate Coded(r: Row) {
    r.state in {Approved, Overridden} ==> NonEmpty(r.finalCode)
  }

  /** Every excluded row carries a rationale. */
  predicate Justified(r: Row) {
    r.state == Excluded ==> r.note.Some? && !Blank(r.note.value)
  }

  predicate NonEmpty(s: Option<string>) {
    s.Some? && s.value != ""
  }

  // ---------- the rows a bulk approval works on ----------

  /** The row at k is the last one of its line item. */
  predicate LastOfItem(rows: seq<Row>, k: nat) {
    k < |rows| && forall l :: k < l < |rows| ==> !Of(rows[l], rows[k].compilation, rows[k].item)
  }

  predicate SuggestedAt(rows: seq<Row>, c: nat, k: nat) {
    k < |rows| && rows[k].compilation == c && rows[k].state == AiSuggested && LastOfItem(rows, k)
  }

  /** The latest rows of a compilation that are still AI suggestions, among the first n rows. */
  function LatestSuggested(rows: seq<Row>, c: nat, n: nat): seq<Row>
    requires n <= |rows|
  {
    if n == 0 then [] else
      LatestSuggested(rows, c, n - 1) + if SuggestedAt(rows, c, n - 1) then [rows[n - 1]] else []
  }

  predicate Confident(r: Row, threshold: real) {
    r.confidence.Some? && r.confidence.value >= threshold
  }

  function Eligible(suggested: seq<Row>, threshold: real): seq<Row> {
    if suggested == [] then [] else
      var m := |suggested| - 1;
      Eligible(suggested[..m], threshold) + if Confident(suggested[m], threshold) then [suggested[m]] else []
  }

  function Approval(r: Row, note: string, actor: nat): Row {
    Row(r.compilation, r.item, Approved, r.suggestedCode, r.confidence,
      if NonEmpty(r.finalCode) then r.finalCode else r.suggestedCode,
      Some("APPROVED"), Some(note), actor)
  }

  function Approvals(eligible: seq<Row>, note: string, actor: nat): seq<Row> {
    if eligible == [] then [] else
      var m := |eligible| - 1;
      Approvals(eligible[..m], note, actor) + [Approval(eligible[m], note, actor)]
  }

  function BulkRows(rows: seq<Row>, c: nat, threshold: real, note: string, actor: nat): seq<Row> {
    Approvals(Eligible(LatestSuggested(rows, c, |rows|), threshold), note, actor)
  }

  /** A line item's latest row is one that a bulk approval at this threshold takes. */
  predicate Taken(latest: Option<Row>, threshold: real) {
    latest.Some? && latest.value.state == AiSuggested && Confident(latest.value, threshold)
  }

  // ---------- what a bulk approval does to one line item ----------

  lemma {:induction false} ApprovalsAppend(a: seq<Row>, r: Row, note: string, actor: nat)
    ensures Approvals(a + [r], note, actor) == Approvals(a, note, actor) + [Approval(r, note, actor)]
  {
  }

  /** Among rows with at most one per line item, filtering and approving acts item by item. */
  lemma {:induction false} ApprovalsHistory(suggested: seq<Row>, t: real, note: string, actor: nat, c: nat, i: nat)
    requires |History(suggested, c, i)| <= 1
    ensures var h := History(suggested, c, i);
      History(Approvals(Eligible(suggested, t), note, actor), c, i) ==
        if h != [] && Confident(h[0], t) then [Approval(h[0], note, actor)] else []
  {
    if suggested != [] {
      var m := |suggested| - 1;
      var r, e := suggested[m], Eligible(suggested[..m], t);
      ApprovalsHistory(suggested[..m], t, note, actor, c, i);
      assert History(suggested, c, i) ==
        History(suggested[..m], c, i) + if Of(r, c, i) then [r] else [];
      if Confident(r, t) {
        assert Eligible(suggested, t) == e + [r];
        hide History, Eligible, Approvals;
        ApprovalsAppend(e, r, note, actor);
        HistoryAppend(Approvals(e, note, actor), Approval(r, note, actor), c, i);
      } else {
        assert Eligible(suggested, t) == e;
      }
    }
  }

  /** The last of a line item's rows, if it is a suggestion and no row of the item comes later. */
  function LastSuggested(history: seq<Row>, later: seq<Row>): seq<Row> {
    if history != [] && history[|history| - 1].state == AiSuggested && later == []
    then [history[|history| - 1]] else []
  }

  /** The suggested rows hold a line item's latest row exactly when that row is a suggestion. */
  lemma {:induction false} SuggestedHistory(rows: seq<Row>, c: nat, n: nat, i: nat)
    requires n <= |rows|
    ensures History(LatestSuggested(rows, c, n), c, i) ==
      LastSuggested(History(rows[..n], c, i), History(rows[n..], c, i))
  {
    hide History, LatestSuggested, LastOfItem, LastSuggested;
    if n == 0 {
      NoneSuggested(rows, c, i);
    } else {
      var m := n - 1;
      SuggestedHistory(rows, c, m, i);
      SplitAtRow(rows, m);
      LastMeansNoneAfter(rows, m);
      SuggestedNext(rows, c, m);
      SuggestedStep(rows[m], rows[..m], rows[n..], LatestSuggested(rows, c, m), SuggestedAt(rows, c, m), c, i);
    }
  }

  lemma {:induction false} NoneSuggested(rows: seq<Row>, c: nat, i: nat)
    ensures History(LatestSuggested(rows, c, 0), c, i) ==
      LastSuggested(History(rows[..0], c, i), History(rows[0..], c, i))
  {
  }

  lemma SuggestedNext(rows: seq<Row>, c: nat, m: nat)
    requires m < |rows|
    ensures LatestSuggested(rows, c, m + 1) ==
      LatestSuggested(rows, c, m) + if SuggestedAt(rows, c, m) then [rows[m]] else []
  {
  }

  lemma SplitAtRow(rows: seq<Row>, m: nat)
    requires m < |rows|
    ensures rows[..m + 1] == rows[..m] + [rows[m]] && rows[m..] == [rows[m]] + rows[m + 1..]
  {
  }

  /** One more row r between those before and those after it; it may be one of the suggested. */
  lemma {:induction false} SuggestedStep(r: Row, before: seq<Row>, after: seq<Row>, suggested: seq<Row>, taken: bool,
      c: nat, i: nat)
    requires History(suggested, c, i) == LastSuggested(History(before, c, i), History([r] + after, c, i))
    requires Of(r, c, i) ==> (taken <==> r.state == AiSuggested && History(after, c, i) == [])
    ensures History(suggested + if taken then [r] else [], c, i) ==
      LastSuggested(History(before + [r], c, i), History(after, c, i))
  {
    hide History, LastSuggested;
    HistoryAppend(before, r, c, i);
    HistoryPrepend(r, after, c, i);
    if taken {
      HistoryAppend(suggested, r, c, i);
    } else {
      assert suggested + [] == suggested;
    }
    OneMoreRow(History(suggested, c, i), History(before, c, i), History(after, c, i), r, Of(r, c, i), taken);
  }

  /** One more row: it is the item's (mine) or not, and it is taken or not. */
  lemma OneMoreRow(suggested: seq<Row>, history: seq<Row>, later: seq<Row>, r: Row, mine: bool, taken: bool)
    requires suggested == LastSuggested(history, (if mine then [r] else []) + later)
    requires mine ==> (taken <==> r.state == AiSuggested && later == [])
    ensures suggested + (if taken && mine then [r] else []) ==
      LastSuggested(history + (if mine then [r] else []), later)
  {
    if mine {
      assert ([r] + later) != [];
      assert (history + [r])[|history|] == r;
    } else {
      assert [] + later == later && history + [] == history && suggested + [] == suggested;
    }
  }

  lemma LastMeansNoneAfter(rows: seq<Row>, m: nat)
    requires m < |rows|
    ensures LastOfItem(rows, m) <==> History(rows[m + 1..], rows[m].compilation, rows[m].item) == []
  {
    var after := rows[m + 1..];
    HistoryEmptyMeans(after, rows[m].compilation, rows[m].item);
    forall l | m < l < |rows| ensures rows[l] == after[l - m - 1] {
    }
    forall k | 0 <= k < |after| ensures after[k] == rows[m + 1 + k] {
    }
  }

  lemma {:induction false} HistoryEmptyMeans(rows: seq<Row>, c: nat, i: nat)
    ensures History(rows, c, i) == [] <==> forall k :: 0 <= k < |rows| ==> !Of(rows[k], c, i)
  {
    if rows != [] {
      HistoryEmptyMeans(rows[..|rows| - 1], c, i);
    }
  }

  /** A bulk approval appends at most one row to a line item: an approval of its latest row, exactly
      when that row is a confident enough AI suggestion. */
  lemma {:induction false} BulkHistory(rows: seq<Row>, c: nat, t: real, note: string, actor: nat, i: nat)
    ensures History(BulkRows(rows, c, t, note, actor), c, i) ==
      if Taken(Latest(rows, c, i), t) then [Approval(Latest(rows, c, i).value, note, actor)] else []
  {
    var n := |rows|;
    SuggestedHistory(rows, c, n, i);
    assert rows[..n] == rows && rows[n..] == [];
    ApprovalsHistory(LatestSuggested(rows, c, n), t, note, actor, c, i);
  }

  /** Other compilations are not touched. */
  lemma {:induction false} BulkElsewhere(rows: seq<Row>, c: nat, t: real, note: string, actor: nat,
      c': nat, i: nat)
    requires c' != c
    ensures History(BulkRows(rows, c, t, note, actor), c', i) == []
  {
    SuggestedElsewhere(rows, c, |rows|, c', i);
    ApprovalsHistory(LatestSuggested(rows, c, |rows|), t, note, actor, c', i);
  }

  lemma {:induction false} SuggestedElsewhere(rows: seq<Row>, c: nat, n: nat, c': nat, i: nat)
    requires c' != c && n <= |rows|
    ensures History(LatestSuggested(rows, c, n), c', i) == []
  {
    if n > 0 {
      var before := LatestSuggested(rows, c, n - 1);
      SuggestedElsewhere(rows, c, n - 1, c', i);
      if SuggestedAt(rows, c, n - 1) {
        HistoryAppend(before, rows[n - 1], c', i);
      } else {
        assert before + [] == before;
      }
    }
  }

  // ---------- how many line items are suggested ----------

  predicate StillSuggested(rows: seq<Row>, c: nat, i: nat) {
    var latest := Latest(rows, c, i);
    latest.Some? && latest.value.state == AiSuggested
  }

  /** The line items whose latest decision is an AI suggestion. */
  function SuggestedItems(rows: seq<Row>, c: nat): set<nat> {
    set k | 0 <= k < |rows| && rows[k].compilation == c && StillSuggested(rows, c, rows[k].item) :: rows[k].item
  }

  function ItemsUpTo(rows: seq<Row>, c: nat, n: nat): set<nat>
    requires n <= |rows|
  {
    set k | 0 <= k < n && SuggestedAt(rows, c, k) :: rows[k].item
  }

  lemma {:induction false} SuggestedUpTo(rows: seq<Row>, c: nat, n: nat)
    requires n <= |rows|
    ensures |LatestSuggested(rows, c, n)| == |ItemsUpTo(rows, c, n)|
  {
    if n > 0 {
      var m := n - 1;
      SuggestedUpTo(rows, c, m);
      OneMoreItem(rows, c, m);
      hide ItemsUpTo, SuggestedAt;
    }
  }

  lemma OneMoreItem(rows: seq<Row>, c: nat, m: nat)
    requires m < |rows|
    ensures ItemsUpTo(rows, c, m + 1) ==
      ItemsUpTo(rows, c, m) + if SuggestedAt(rows, c, m) then {rows[m].item} else {}
    ensures SuggestedAt(rows, c, m) ==> rows[m].item !in ItemsUpTo(rows, c, m)
  {
  }

  /** The list of latest suggestions has one row for each such line item. */
  lemma {:induction false} SuggestedCount(rows: seq<Row>, c: nat)
    ensures |LatestSuggested(rows, c, |rows|)| == |SuggestedItems(rows, c)|
  {
    SuggestedUpTo(rows, c, |rows|);
    hide Latest, LatestSuggested;
    forall i ensures i in ItemsUpTo(rows, c, |rows|) <==> i in SuggestedItems(rows, c) {
      if i in ItemsUpTo(rows, c, |rows|) {
        var k :| 0 <= k < |rows| && SuggestedAt(rows, c, k) && rows[k].item == i;
        LatestAt(rows, k);
      } else if i in SuggestedItems(rows, c) {
        LatestMeans(rows, c, i);
      }
    }
    assert ItemsUpTo(rows, c, |rows|) == SuggestedItems(rows, c);
  }

  // ---------- what is still suggested afterwards ----------

  /** The suggestions a bulk approval leaves alone. */
  function Skipped(suggested: seq<Row>, threshold: real): seq<Row> {
    if suggested == [] then [] else
      var m := |suggested| - 1;
      Skipped(suggested[..m], threshold) + if Confident(suggested[m], threshold) then [] else [suggested[m]]
  }

  lemma {:induction false} EligibleOrSkipped(suggested: seq<Row>, t: real)
    ensures |Eligible(suggested, t)| + |Skipped(suggested, t)| == |suggested|
  {
    if suggested != [] {
      EligibleOrSkipped(suggested[..|suggested| - 1], t);
    }
  }

  lemma LatestAt(rows: seq<Row>, k: nat)
    requires LastOfItem(rows, k)
    ensures Latest(rows, rows[k].compilation, rows[k].item) == Some(rows[k])
  {
    var c, i := rows[k].compilation, rows[k].item;
    LastMeansNoneAfter(rows, k);
    assert rows == rows[..k] + ([rows[k]] + rows[k + 1..]);
    HistoryConcat(rows[..k], [rows[k]] + rows[k + 1..], c, i);
    HistoryPrepend(rows[k], rows[k + 1..], c, i);
  }

  lemma StillSuggestedAt(rows: seq<Row>, c: nat, t: real, note: string, actor: nat, k: nat)
    requires k < |rows|
    ensures var after := rows + BulkRows(rows, c, t, note, actor);
      SuggestedAt(after, c, k) <==> SuggestedAt(rows, c, k) && !Confident(rows[k], t)
  {
    var more, i := BulkRows(rows, c, t, note, actor), rows[k].item;
    var after := rows + more;
    LastMeansNoneAfter(rows, k);
    LastMeansNoneAfter(after, k);
    assert after[k + 1..] == rows[k + 1..] + more;
    HistoryConcat(rows[k + 1..], more, rows[k].compilation, i);
    BulkHistory(rows, c, t, note, actor, i);
    if rows[k].compilation == c && LastOfItem(rows, k) {
      LatestAt(rows, k);
    }
  }

  lemma {:induction false} ApprovalsAreApproved(eligible: seq<Row>, note: string, actor: nat)
    ensures forall k :: 0 <= k < |Approvals(eligible, note, actor)| ==>
      Approvals(eligible, note, actor)[k].state == Approved
  {
    if eligible != [] {
      ApprovalsAreApproved(eligible[..|eligible| - 1], note, actor);
    }
  }

  lemma {:induction false} SkippedAppend(a: seq<Row>, r: Row, t: real)
    ensures Skipped(a + [r], t) == Skipped(a, t) + if Confident(r, t) then [] else [r]
  {
  }

  /** After a bulk approval the AI suggestions left are exactly those it skipped. */
  lemma {:induction false} SuggestedAfterBulk(rows: seq<Row>, c: nat, t: real, note: string, actor: nat, n: nat)
    requires n <= |rows + BulkRows(rows, c, t, note, actor)|
    ensures LatestSuggested(rows + BulkRows(rows, c, t, note, actor), c, n) ==
      Skipped(LatestSuggested(rows, c, if n <= |rows| then n else |rows|), t)
  {
    hide BulkRows, Skipped, SuggestedAt;
    if n == 0 {
      NothingSkipped(t);
    } else {
      var more := BulkRows(rows, c, t, note, actor);
      var after := rows + more;
      SuggestedAfterBulk(rows, c, t, note, actor, n - 1);
      if n <= |rows| {
        var s := LatestSuggested(rows, c, n - 1);
        StillSuggestedAt(rows, c, t, note, actor, n - 1);
        SkippedAppend(s, rows[n - 1], t);
        assert s + [] == s;
        assert Skipped(s, t) + [] == Skipped(s, t);
      } else {
        NotSuggestedAfter(rows, c, t, note, actor, n - 1);
      }
    }
  }

  lemma {:induction false} NothingSkipped(t: real)
    ensures Skipped([], t) == []
  {
  }

  lemma NotSuggestedAfter(rows: seq<Row>, c: nat, t: real, note: string, actor: nat, k: nat)
    requires |rows| <= k < |rows + BulkRows(rows, c, t, note, actor)|
    ensures !SuggestedAt(rows + BulkRows(rows, c, t, note, actor), c, k)
  {
    ApprovalsAreApproved(Eligible(LatestSuggested(rows, c, |rows|), t), note, actor);
    assert (rows + BulkRows(rows, c, t, note, actor))[k] == BulkRows(rows, c, t, note, actor)[k - |rows|];
  }
}
