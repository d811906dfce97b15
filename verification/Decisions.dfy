/** The decision endpoints of a compilation: put, bulk approval, audit trail and the status counts. */
module Decisions {
  import opened Options
  import opened Strings
  import opened DecisionHistory

  /** The body of a put; `state` is None when the text names no state, `decidedBy` when it is not a
      UUID. */
  datatype PutBody = PutBody(
    state: Option<MappingState>, suggestedCode: Option<string>, confidence: Option<real>,
    finalCode: Option<string>, decisionType: Option<string>, note: Option<string>,
    decidedBy: Option<nat>)

  datatype Config = Config(table: Transitions, compilations: set<nat>, bulkNote: real -> string)

  const NOT_FOUND := 404
  const UNPROCESSABLE := 422
  const CONFLICT := 409
  const CRASHED := 500

  function RowOf(c: nat, i: nat, body: PutBody): Row
    requires body.state.Some? && body.decidedBy.Some?
  {
    Row(c, i, body.state.value, body.suggestedCode, body.confidence, body.finalCode,
      body.decisionType, body.note, body.decidedBy.value)
  }

  /** A put is accepted when all of this holds. */
  predicate Acceptable(cfg: Config, rows: seq<Row>, c: nat, i: nat, body: PutBody) {
    c in cfg.compilations && body.state.Some? && body.decidedBy.Some? &&
    Coded(RowOf(c, i, body)) && Justified(RowOf(c, i, body)) &&
    var latest := Latest(rows, c, i);
    latest.Some? ==> Allowed(cfg.table, latest.value.state, body.state.value)
  }

  datatype Request =
    | Put(c: nat, i: nat, body: PutBody)
    | Bulk(c: nat, threshold: real, actor: Option<nat>)

  /** The rows after one request. */
  function After(cfg: Config, rows: seq<Row>, req: Request): seq<Row> {
    match req
    case Put(c, i, body) =>
      if Acceptable(cfg, rows, c, i, body) then rows + [RowOf(c, i, body)] else rows
    case Bulk(c, t, actor) =>
      if c in cfg.compilations && actor.Some?
      then rows + BulkRows(rows, c, t, cfg.bulkNote(t), actor.value) else rows
  }

  function AfterAll(cfg: Config, rows: seq<Row>, reqs: seq<Request>): seq<Row> {
    if reqs == [] then rows else
      After(cfg, AfterAll(cfg, rows, reqs[..|reqs| - 1]), reqs[|reqs| - 1])
  }

  datatype AuditEntry = AuditEntry(
    action: string, fromState: Option<MappingState>, toState: MappingState, actor: nat,
    rationale: Option<string>)

  function Action(s: MappingState): string {
    match s
    case Unmapped => "reset"
    case AiSuggested => "suggest"
    case Approved => "approve"
    case Overridden => "override"
    case ManagerReview => "escalate"
    case Excluded => "exclude"
    case Locked => "lock"
  }

  datatype BulkResult = BulkResult(status: int, approved: int, skipped: int, total: int)

  class Store {
    var rows: seq<Row>
    const cfg: Config

    constructor (cfg: Config)
      ensures this.cfg == cfg && rows == []
    {
      this.cfg := cfg;
      rows := [];
    }

    /** The answers in the order they are given: unknown compilation; no such state, or the code or
        rationale that its state needs is missing; not a transition of the table; a decider that is
        no UUID. Otherwise the row is appended, as first or as further decision. */
    method PutDecision(c: nat, i: nat, body: PutBody) returns (status: int)
      modifies this
      ensures rows == After(cfg, old(rows), Put(c, i, body))
      ensures status in {200, 201} <==> Acceptable(cfg, old(rows), c, i, body)
      ensures status == 404 <==> c !in cfg.compilations
      ensures status == 422 <==>
        (c in cfg.compilations &&
         (body.state.None? ||
          (body.state.value in {Approved, Overridden} && (body.finalCode.None? || body.finalCode.value == "")) ||
          (body.state == Some(Excluded) && (body.note.None? || Blank(body.note.value)))))
      ensures status == 409 ==> body.state.Some? && exists r: Row ::
        Latest(old(rows), c, i) == Some(r) &&
        !(r.state in cfg.table && body.state.value in cfg.table[r.state])
      ensures status == 500 ==> body.decidedBy.None?
      ensures status == 201 ==> Latest(old(rows), c, i).None?
      ensures status == 200 ==> body.state.Some? && exists r: Row ::
        Latest(old(rows), c, i) == Some(r) &&
        r.state in cfg.table && body.state.value in cfg.table[r.state]
      ensures status in {200, 201} ==>
        (body.state.Some? && body.decidedBy.Some? &&
         rows == old(rows) + [Row(c, i, body.state.value, body.suggestedCode, body.confidence,
           body.finalCode, body.decisionType, body.note, body.decidedBy.value)])
      ensures status !in {200, 201} ==> rows == old(rows)
      ensures status in {200, 201, 404, 409, 422, 500}
    {
      if c !in cfg.compilations {
        return NOT_FOUND;
      }
      if body.state.None? {
        return UNPROCESSABLE;
      }
      var target := body.state.value;
      if target in {Approved, Overridden} {
        if !NonEmpty(body.finalCode) {
          return UNPROCESSABLE;
        }
      }
      if target == Excluded {
        if body.note.None? || Blank(body.note.value) {
          return UNPROCESSABLE;
        }
      }
      var existing := Latest(rows, c, i);
      if existing.Some? {
        if !Allowed(cfg.table, existing.value.state, target) {
          return CONFLICT;
        }
        status := 200;
      } else {
        status := 201;
      }
      if body.decidedBy.None? {
        return CRASHED;
      }
      rows := rows + [RowOf(c, i, body)];
    }

    method BulkApprove(c: nat, threshold: real, actor: Option<nat>) returns (r: BulkResult)
      modifies this
      ensures rows == After(cfg, old(rows), Bulk(c, threshold, actor))
      ensures r.status == 200 <==> c in cfg.compilations && actor.Some?
      ensures r.status == 404 <==> c !in cfg.compilations
      ensures r.status in {200, 404, 500}
      ensures r.status != 200 ==> rows == old(rows)
      ensures r.status == 200 ==>
        r.total == |SuggestedItems(old(rows), c)| &&
        r.approved == |rows| - |old(rows)| &&
        r.skipped == |SuggestedItems(rows, c)| &&
        r.approved + r.skipped == r.total
      ensures r.status == 200 ==> forall i: nat ::
        BulkOutcome(Latest(old(rows), c, i), Latest(rows, c, i), threshold, cfg.bulkNote(threshold), actor.value)
      ensures r.status == 200 ==> forall c': nat, i: nat :: c' != c ==>
        Latest(rows, c', i) == Latest(old(rows), c', i)
    {
      if c !in cfg.compilations {
        return BulkResult(NOT_FOUND, 0, 0, 0);
      }
      var allSuggested := LatestSuggested(rows, c, |rows|);
      var eligible := Eligible(allSuggested, threshold);
      if actor.None? {
        return BulkResult(CRASHED, 0, 0, 0);
      }
      ghost var before := rows;
      var approved := 0;
      var note := cfg.bulkNote(threshold);
      for k := 0 to |eligible|
        invariant approved == k
        invariant rows == before + Approvals(eligible[..k], note, actor.value)
        invariant |Approvals(eligible[..k], note, actor.value)| == k
      {
        assert eligible[..k + 1][..k] == eligible[..k];
        rows := rows + [Approval(eligible[k], note, actor.value)];
        approved := approved + 1;
      }
      assert eligible[..|eligible|] == eligible;
      EligibleOrSkipped(allSuggested, threshold);
      SuggestedCount(before, c);
      SuggestedCount(rows, c);
      SuggestedAfterBulk(before, c, threshold, note, actor.value, |rows|);
      hide After, Latest, LatestSuggested, BulkRows, BulkOutcome;
      forall i: nat ensures BulkOutcome(Latest(before, c, i), Latest(rows, c, i), threshold, note, actor.value) {
        BulkApproves(cfg, before, c, threshold, actor.value, i);
      }
      forall c': nat, i: nat | c' != c ensures Latest(rows, c', i) == Latest(before, c', i) {
        LatestAfterBulk(cfg, before, c, threshold, actor.value, c', i);
      }
      r := BulkResult(200, approved, |allSuggested| - approved, |allSuggested|);
    }

    /** The history with each row's predecessor state; reads only. */
    method AuditTrail(c: nat, i: nat) returns (entries: seq<AuditEntry>)
      ensures Linked(History(rows, c, i), entries)
      ensures var h := History(rows, c, i);
        |entries| == |h| && forall k :: 0 <= k < |h| ==>
          entries[k] == AuditEntry(Action(h[k].state), (if k == 0 then None else Some(h[k - 1].state)),
            h[k].state, h[k].decidedBy, h[k].note)
    {
      hide History, Action;
      var history := History(rows, c, i);
      entries := [];
      var prevState: Option<MappingState> := None;
      for k := 0 to |history|
        invariant Linked(history[..k], entries)
        invariant prevState == if k == 0 then None else Some(history[k - 1].state)
      {
        var r := history[k];
        LinkedAppend(history[..k], entries, r, prevState);
        assert history[..k + 1] == history[..k] + [r];
        entries := entries + [AuditEntry(Action(r.state), prevState, r.state, r.decidedBy, r.note)];
        prevState := Some(r.state);
      }
      assert history[..|history|] == history;
    }

    /** The counting loop of the detail view: decisions among the suggested line items, by state. */
    method CountDecisions(c: nat, items: seq<nat>) returns (decided: nat, summary: map<MappingState, nat>)
      ensures decided == DecidedAmong(rows, c, items)
      ensures forall s :: CountOf(summary, s) == InStateAmong(rows, c, items, s)
      ensures forall s :: s in summary ==> summary[s] > 0
    {
      decided := 0;
      summary := map[];
      for k := 0 to |items|
        invariant decided == DecidedAmong(rows, c, items[..k])
        invariant forall s :: CountOf(summary, s) == InStateAmong(rows, c, items[..k], s)
        invariant forall s :: s in summary ==> summary[s] > 0
      {
        assert items[..k + 1][..k] == items[..k];
        var latest := Latest(rows, c, items[k]);
        if latest.Some? {
          decided := decided + 1;
          var s := latest.value.state;
          summary := summary[s := CountOf(summary, s) + 1];
        }
      }
      assert items[..|items|] == items;
    }
  }

  // ---------- the audit trail ----------

  /** Entry k carries row k, and its from-state is the to-state of the entry before it. */
  predicate Linked(h: seq<Row>, entries: seq<AuditEntry>) {
    |entries| == |h| &&
    (forall k :: 0 <= k < |h| ==>
      entries[k].toState == h[k].state && entries[k].action == Action(h[k].state) &&
      entries[k].actor == h[k].decidedBy && entries[k].rationale == h[k].note) &&
    (|h| > 0 ==> entries[0].fromState == None) &&
    (forall k :: 0 < k < |h| ==> entries[k].fromState == Some(entries[k - 1].toState))
  }

  lemma LinkedAppend(h: seq<Row>, entries: seq<AuditEntry>, r: Row, prev: Option<MappingState>)
    requires Linked(h, entries)
    requires prev == if h == [] then None else Some(h[|h| - 1].state)
    ensures Linked(h + [r], entries + [AuditEntry(Action(r.state), prev, r.state, r.decidedBy, r.note)])
  {
    hide Action;
    var h', entries' := h + [r], entries + [AuditEntry(Action(r.state), prev, r.state, r.decidedBy, r.note)];
    assert forall k :: 0 <= k < |h| ==> h'[k] == h[k] && entries'[k] == entries[k];
    assert |h| > 0 ==> entries[|h| - 1].toState == h[|h| - 1].state;
  }

  /** Following a trail from "no decision yet": each entry must start where the last one ended. */
  function Replay(entries: seq<AuditEntry>): Option<Option<MappingState>> {
    if entries == [] then Some(None) else
      var m := |entries| - 1;
      var before := Replay(entries[..m]);
      if before == Some(entries[m].fromState) then Some(Some(entries[m].toState)) else None
  }

  function LatestState(rows: seq<Row>, c: nat, i: nat): Option<MappingState> {
    var latest := Latest(rows, c, i);
    if latest.Some? then Some(latest.value.state) else None
  }

  lemma {:induction false} LinkedReplays(h: seq<Row>, entries: seq<AuditEntry>)
    requires Linked(h, entries)
    ensures Replay(entries) == Some(if h == [] then None else Some(h[|h| - 1].state))
  {
    if h != [] {
      var m := |h| - 1;
      assert Linked(h[..m], entries[..m]);
      LinkedReplays(h[..m], entries[..m]);
    }
  }

  /** Replaying an audit trail succeeds and ends in the state of the latest decision. */
  lemma {:induction false} AuditTrailReplays(rows: seq<Row>, c: nat, i: nat, entries: seq<AuditEntry>)
    requires Linked(History(rows, c, i), entries)
    ensures Replay(entries) == Some(LatestState(rows, c, i))
  {
    LinkedReplays(History(rows, c, i), entries);
  }

  /** Each state's action, by name. */
  lemma ActionNames()
    ensures Action(Unmapped) == "reset" && Action(AiSuggested) == "suggest" && Action(Approved) == "approve"
    ensures Action(Overridden) == "override" && Action(ManagerReview) == "escalate"
    ensures Action(Excluded) == "exclude" && Action(Locked) == "lock"
  {
  }

  /** No two states share one. */
  lemma ActionsDiffer(a: MappingState, b: MappingState)
    ensures Action(a) == Action(b) ==> a == b
  {
    assert forall s :: |Action(s)| >= 4;
    assert Action(a)[0] == Action(b)[0] || Action(a) != Action(b);
    assert Action(a)[1] == Action(b)[1] || Action(a) != Action(b);
  }

  // ---------- every run of puts and bulk approvals ----------

  /** Rows are only ever appended: no earlier decision is changed or dropped. */
  lemma {:induction false} AppendOnly(cfg: Config, rows: seq<Row>, reqs: seq<Request>)
    ensures rows <= AfterAll(cfg, rows, reqs)
  {
    hide BulkRows;
    if reqs != [] {
      AppendOnly(cfg, rows, reqs[..|reqs| - 1]);
    }
  }

  /** One request keeps every line item's history a path of the transition table, given that the
      table lets AI_SUGGESTED be approved (bulk approval does not consult it). */
  lemma RequestKeepsPaths(cfg: Config, rows: seq<Row>, req: Request)
    requires AllPaths(cfg.table, rows) && Allowed(cfg.table, AiSuggested, Approved)
    ensures AllPaths(cfg.table, After(cfg, rows, req))
  {
    hide BulkRows, History;
    forall c: nat, i: nat ensures Path(cfg.table, History(After(cfg, rows, req), c, i)) {
      assert Path(cfg.table, History(rows, c, i));
      match req {
        case Put(_, _, body) =>
          if Acceptable(cfg, rows, req.c, req.i, body) {
            HistoryAppend(rows, RowOf(req.c, req.i, body), c, i);
          }
        case Bulk(bc, t, actor) =>
          if bc in cfg.compilations && actor.Some? {
            var note := cfg.bulkNote(t);
            HistoryConcat(rows, BulkRows(rows, bc, t, note, actor.value), c, i);
            if bc == c {
              BulkHistory(rows, c, t, note, actor.value, i);
            } else {
              BulkElsewhere(rows, bc, t, note, actor.value, c, i);
            }
          }
      }
    }
  }

  /** Over every run, each line item's history is a path of the transition table. */
  lemma {:induction false} RunKeepsPaths(cfg: Config, rows: seq<Row>, reqs: seq<Request>)
    requires AllPaths(cfg.table, rows) && Allowed(cfg.table, AiSuggested, Approved)
    ensures AllPaths(cfg.table, AfterAll(cfg, rows, reqs))
  {
    if reqs != [] {
      RunKeepsPaths(cfg, rows, reqs[..|reqs| - 1]);
      RequestKeepsPaths(cfg, AfterAll(cfg, rows, reqs[..|reqs| - 1]), reqs[|reqs| - 1]);
    }
  }

  /** In the terms of the table: from an empty store, each row of a line item's history leads to the
      next by a listed transition. */
  lemma {:induction false} RunFollowsTable(cfg: Config, reqs: seq<Request>, c: nat, i: nat, k: nat)
    requires AiSuggested in cfg.table && Approved in cfg.table[AiSuggested]
    requires k + 1 < |History(AfterAll(cfg, [], reqs), c, i)|
    ensures var h := History(AfterAll(cfg, [], reqs), c, i);
      h[k].state in cfg.table && h[k + 1].state in cfg.table[h[k].state]
  {
    RunKeepsPaths(cfg, [], reqs);
    hide AfterAll, History;
    var h := History(AfterAll(cfg, [], reqs), c, i);
    assert Path(cfg.table, h);
    assert Allowed(cfg.table, h[k].state, h[k + 1].state);
  }

  /** The transition table the application ships with. */
  const SHIPPED: Transitions := map[
    Unmapped := {AiSuggested, Approved, Excluded},
    AiSuggested := {Approved, Overridden, ManagerReview},
    Approved := {Overridden, Locked},
    Overridden := {Locked, ManagerReview},
    ManagerReview := {Locked, AiSuggested, Overridden},
    Excluded := {Unmapped, AiSuggested},
    Locked := {Approved, Overridden}]

  /** With the shipped table, every history any run can produce is a path: it lists the step bulk
      approval takes without asking. */
  lemma {:induction false} ShippedRunsKeepPaths(cfg: Config, reqs: seq<Request>)
    requires cfg.table == SHIPPED
    ensures AllPaths(SHIPPED, AfterAll(cfg, [], reqs))
  {
    hide AfterAll;
    RunKeepsPaths(cfg, [], reqs);
  }

  /** Without that entry in the table a bulk approval breaks the path property exactly when it
      approves anything: some line item's latest decision is a confident enough suggestion. */
  lemma BulkPathsExactly(cfg: Config, rows: seq<Row>, c: nat, t: real, actor: nat)
    requires AllPaths(cfg.table, rows) && c in cfg.compilations
    requires !Allowed(cfg.table, AiSuggested, Approved)
    ensures AllPaths(cfg.table, After(cfg, rows, Bulk(c, t, Some(actor)))) <==>
      forall i: nat :: !Taken(Latest(rows, c, i), t)
  {
    hide BulkRows, History;
    var note := cfg.bulkNote(t);
    var after := After(cfg, rows, Bulk(c, t, Some(actor)));
    forall i: nat
      ensures Path(cfg.table, History(after, c, i)) <==> !Taken(Latest(rows, c, i), t)
    {
      var h := History(rows, c, i);
      assert Path(cfg.table, h);
      HistoryConcat(rows, BulkRows(rows, c, t, note, actor), c, i);
      BulkHistory(rows, c, t, note, actor, i);
      if Taken(Latest(rows, c, i), t) {
        var r := Approval(Latest(rows, c, i).value, note, actor);
        assert History(after, c, i) == h + [r];
        assert (h + [r])[|h| - 1] == h[|h| - 1] && (h + [r])[|h|] == r;
      } else {
        assert h + [] == h;
      }
    }
    forall c': nat, i: nat | c' != c ensures Path(cfg.table, History(after, c', i)) {
      assert Path(cfg.table, History(rows, c', i));
      HistoryConcat(rows, BulkRows(rows, c, t, note, actor), c', i);
      BulkElsewhere(rows, c, t, note, actor, c', i);
    }
  }

  // ---------- bulk approval ----------

  /** The latest decision of every line item after a bulk approval. */
  lemma LatestAfterBulk(cfg: Config, rows: seq<Row>, c: nat, t: real, actor: nat, c': nat, i: nat)
    requires c in cfg.compilations
    ensures Latest(After(cfg, rows, Bulk(c, t, Some(actor))), c', i) ==
      if c' == c && Taken(Latest(rows, c, i), t)
      then Some(Approval(Latest(rows, c, i).value, cfg.bulkNote(t), actor))
      else Latest(rows, c', i)
  {
    hide BulkRows;
    var note := cfg.bulkNote(t);
    LatestConcat(rows, BulkRows(rows, c, t, note, actor), c', i);
    if c' == c {
      BulkHistory(rows, c, t, note, actor, i);
    } else {
      BulkElsewhere(rows, c, t, note, actor, c', i);
    }
  }

  /** A suggestion whose confidence is at least t becomes an approval of the same suggestion, with the
      row's own code if it has one and the suggested code otherwise; anything else stays. */
  predicate BulkOutcome(before: Option<Row>, after: Option<Row>, t: real, note: string, actor: nat) {
    if before.Some? && before.value.state == AiSuggested &&
       before.value.confidence.Some? && before.value.confidence.value >= t
    then
      var r := before.value;
      after == Some(Row(r.compilation, r.item, Approved, r.suggestedCode, r.confidence,
        (if r.finalCode.Some? && r.finalCode.value != "" then r.finalCode else r.suggestedCode),
        Some("APPROVED"), Some(note), actor))
    else after == before
  }

  /** That is what a bulk approval does to every line item. */
  lemma BulkApproves(cfg: Config, rows: seq<Row>, c: nat, t: real, actor: nat, i: nat)
    requires c in cfg.compilations
    ensures BulkOutcome(Latest(rows, c, i), Latest(After(cfg, rows, Bulk(c, t, Some(actor))), c, i),
      t, cfg.bulkNote(t), actor)
  {
    hide After, Latest;
    LatestAfterBulk(cfg, rows, c, t, actor, c, i);
  }

  /** A suggestion that is left has a confidence below t, or none. */
  lemma BulkLeavesNone(cfg: Config, rows: seq<Row>, c: nat, t: real, actor: nat, i: nat)
    requires c in cfg.compilations
    ensures var left := Latest(After(cfg, rows, Bulk(c, t, Some(actor))), c, i);
      left.Some? && left.value.state == AiSuggested && left.value.confidence.Some? ==>
        left.value.confidence.value < t
  {
    hide After, Latest;
    LatestAfterBulk(cfg, rows, c, t, actor, c, i);
  }

  /** What a caller sees of a line item's latest decision, apart from who decided and why. */
  datatype View = NoDecision | View(state: MappingState, suggested: Option<string>,
                                    confidence: Option<real>, final: Option<string>)

  function ViewOf(rows: seq<Row>, c: nat, i: nat): View {
    var latest := Latest(rows, c, i);
    if latest.None? then NoDecision else
      var r := latest.value;
      View(r.state, r.suggestedCode, r.confidence, r.finalCode)
  }

  /** Two bulk approvals in either order, or one at the lower threshold, give every line item the
      same latest state and codes, whoever made them. */
  lemma BulkOrderIrrelevant(cfg: Config, rows: seq<Row>, c: nat, t1: real, t2: real,
      a1: nat, a2: nat, a: nat, c': nat, i: nat)
    requires c in cfg.compilations
    ensures
      var one := After(cfg, After(cfg, rows, Bulk(c, t1, Some(a1))), Bulk(c, t2, Some(a2)));
      var two := After(cfg, After(cfg, rows, Bulk(c, t2, Some(a2))), Bulk(c, t1, Some(a1)));
      var low := After(cfg, rows, Bulk(c, if t1 <= t2 then t1 else t2, Some(a)));
      ViewOf(one, c', i) == ViewOf(two, c', i) == ViewOf(low, c', i)
  {
    hide After, Latest;
    LatestAfterBulk(cfg, rows, c, t1, a1, c', i);
    LatestAfterBulk(cfg, rows, c, t2, a2, c', i);
    LatestAfterBulk(cfg, rows, c, if t1 <= t2 then t1 else t2, a, c', i);
    LatestAfterBulk(cfg, After(cfg, rows, Bulk(c, t1, Some(a1))), c, t2, a2, c', i);
    LatestAfterBulk(cfg, After(cfg, rows, Bulk(c, t2, Some(a2))), c, t1, a1, c', i);
  }

  // ---------- codes and rationales ----------

  predicate RowsSound(rows: seq<Row>) {
    forall k :: 0 <= k < |rows| ==> Coded(rows[k]) && Justified(rows[k])
  }

  /** Puts keep every approved or overridden row coded and every excluded row justified. */
  lemma PutKeepsSound(cfg: Config, rows: seq<Row>, c: nat, i: nat, body: PutBody)
    requires RowsSound(rows)
    ensures RowsSound(After(cfg, rows, Put(c, i, body)))
  {
  }

  predicate HasCode(r: Row) {
    NonEmpty(r.finalCode) || NonEmpty(r.suggestedCode)
  }

  /** A bulk approval keeps it exactly when every suggestion it takes has some code to approve: it
      copies the suggested code without checking that there is one. */
  lemma {:induction false} BulkSoundExactly(cfg: Config, rows: seq<Row>, c: nat, t: real, actor: nat)
    requires RowsSound(rows) && c in cfg.compilations
    ensures RowsSound(After(cfg, rows, Bulk(c, t, Some(actor)))) <==>
      forall r :: r in Eligible(LatestSuggested(rows, c, |rows|), t) ==> HasCode(r)
  {
    hide Eligible, LatestSuggested;
    var e, note := Eligible(LatestSuggested(rows, c, |rows|), t), cfg.bulkNote(t);
    var more := Approvals(e, note, actor);
    ApprovalsAre(e, note, actor);
    var after := rows + more;
    assert after == After(cfg, rows, Bulk(c, t, Some(actor)));
    if RowsSound(after) {
      forall r | r in e ensures HasCode(r) {
        var k :| 0 <= k < |e| && e[k] == r;
        assert Coded(after[|rows| + k]);
      }
    } else {
      var k :| 0 <= k < |after| && !(Coded(after[k]) && Justified(after[k]));
      assert k >= |rows|;
      assert !HasCode(e[k - |rows|]);
    }
  }

  /** A confident suggestion that names no sector. */
  const UNCODED := PutBody(Some(AiSuggested), None, Some(0.9), None, None, None, Some(0))

  /** Two requests reach it, with the shipped table: a suggestion without a code is put, and a bulk
      approval approves it without one. */
  lemma {:induction false} UncodedApproval(cfg: Config)
    requires cfg.table == SHIPPED && 0 in cfg.compilations
    ensures RowsSound(After(cfg, [], Put(0, 0, UNCODED)))
    ensures !RowsSound(AfterAll(cfg, [], [Put(0, 0, UNCODED), Bulk(0, 0.85, Some(1))]))
  {
    var r := RowOf(0, 0, UNCODED);
    var put, bulk := Put(0, 0, UNCODED), Bulk(0, 0.85, Some(1));
    assert After(cfg, [], put) == [] + [r] == [r];
    BulkSoundExactly(cfg, [r], 0, 0.85, 1);
    assert SuggestedAt([r], 0, 0);
    assert LatestSuggested([r], 0, 1) == [r];
    assert Eligible([r], 0.85) == [r] by {
      assert [r][..0] == [];
    }
    assert r in Eligible([r], 0.85) && !HasCode(r);
    TwoRequests(cfg, put, bulk);
  }

  lemma {:induction false} TwoRequests(cfg: Config, a: Request, b: Request)
    ensures AfterAll(cfg, [], [a, b]) == After(cfg, After(cfg, [], a), b)
  {
    hide After;
    assert [a, b][..1] == [a] && [a][..0] == [];
    assert AfterAll(cfg, [], [a]) == After(cfg, AfterAll(cfg, [], []), a);
  }

  lemma {:induction false} ApprovalsAre(e: seq<Row>, note: string, actor: nat)
    ensures |Approvals(e, note, actor)| == |e|
    ensures forall k :: 0 <= k < |e| ==> Approvals(e, note, actor)[k] == Approval(e[k], note, actor)
  {
    if e != [] {
      ApprovalsAre(e[..|e| - 1], note, actor);
    }
  }

  // ---------- the status counts ----------

  function CountOf(summary: map<MappingState, nat>, s: MappingState): nat {
    if s in summary then summary[s] else 0
  }

  function DecidedAmong(rows: seq<Row>, c: nat, items: seq<nat>): nat {
    if items == [] then 0 else
      var m := |items| - 1;
      DecidedAmong(rows, c, items[..m]) + if Latest(rows, c, items[m]).Some? then 1 else 0
  }

  function InStateAmong(rows: seq<Row>, c: nat, items: seq<nat>, s: MappingState): nat {
    if items == [] then 0 else
      var m := |items| - 1;
      InStateAmong(rows, c, items[..m], s) + if LatestState(rows, c, items[m]) == Some(s) then 1 else 0
  }

  /** The positions of the items that have a decision, and of those whose latest one is in state s. */
  function DecidedPositions(rows: seq<Row>, c: nat, items: seq<nat>): set<nat> {
    set k: nat | k < |items| && Latest(rows, c, items[k]).Some?
  }

  function StatePositions(rows: seq<Row>, c: nat, items: seq<nat>, s: MappingState): set<nat> {
    set k: nat | k < |items| && LatestState(rows, c, items[k]) == Some(s)
  }

  lemma OneMorePosition(rows: seq<Row>, c: nat, items: seq<nat>, s: MappingState, m: nat)
    requires |items| == m + 1
    ensures DecidedPositions(rows, c, items) ==
      DecidedPositions(rows, c, items[..m]) + if Latest(rows, c, items[m]).Some? then {m} else {}
    ensures StatePositions(rows, c, items, s) ==
      StatePositions(rows, c, items[..m], s) + if LatestState(rows, c, items[m]) == Some(s) then {m} else {}
    ensures m !in DecidedPositions(rows, c, items[..m]) && m !in StatePositions(rows, c, items[..m], s)
  {
    hide Latest, LatestState;
    assert forall k: nat :: k < m ==> items[..m][k] == items[k];
  }

  /** The counts are the numbers of such items. */
  lemma {:induction false} CountsAre(rows: seq<Row>, c: nat, items: seq<nat>, s: MappingState)
    ensures DecidedAmong(rows, c, items) == |DecidedPositions(rows, c, items)|
    ensures InStateAmong(rows, c, items, s) == |StatePositions(rows, c, items, s)|
  {
    hide Latest, LatestState;
    if items != [] {
      var m := |items| - 1;
      CountsAre(rows, c, items[..m], s);
      OneMorePosition(rows, c, items, s, m);
      hide DecidedPositions, StatePositions;
    }
  }

  /** The per-state counts add up to the number of decided items. */
  lemma {:induction false} CountsAddUp(rows: seq<Row>, c: nat, items: seq<nat>)
    ensures InStateAmong(rows, c, items, Unmapped) + InStateAmong(rows, c, items, AiSuggested) +
      InStateAmong(rows, c, items, Approved) + InStateAmong(rows, c, items, Overridden) +
      InStateAmong(rows, c, items, ManagerReview) + InStateAmong(rows, c, items, Excluded) +
      InStateAmong(rows, c, items, Locked) == DecidedAmong(rows, c, items)
  {
    hide Latest;
    if items != [] {
      var m := |items| - 1;
      CountsAddUp(rows, c, items[..m]);
      match LatestState(rows, c, items[m]) {
        case None =>
        case Some(s) =>
          match s {
            case Unmapped => case AiSuggested => case Approved => case Overridden =>
            case ManagerReview => case Excluded => case Locked =>
          }
      }
    }
  }
}
