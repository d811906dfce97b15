/** One copilot turn after the model has replied: the calls found in the reply are validated in
    order, and the first gated tool called without the user's confirmation stops the turn. */
module ConfirmationGate {
  import opened Options
  import opened Scanner
  import opened Copilot
  import opened JsonText
  import opened JsonMeaning

  const VALID_TOOLS := {
    Points("lookup_data"), Points("build_scenario"), Points("run_engine"), Points("narrate_results"),
    Points("create_export")}
  const GATED_TOOLS := {Points("build_scenario"), Points("run_engine")}

  /** A tool name that is a list or an object cannot be looked up in a set: Python raises TypeError. */
  datatype Rejection = UnknownTool(tool: Json) | ArgumentsNotObject(tool: Json) | UnhashableTool

  datatype ToolCall = ToolCall(name: Str, arguments: Json)

  datatype Turn =
    | Completed(toolCalls: seq<ToolCall>)
    | Pending(call: ToolCall)
    | Raised(rejection: Rejection)

  /** Why a parsed call is refused, if it is. */
  function Refusal(call: Json): Option<Rejection>
    requires IsToolCall(call)
  {
    var tool := call.fields[TOOL];
    if tool.JArray? || tool.JObject? then Some(UnhashableTool)
    else if !tool.JString? || tool.s !in VALID_TOOLS then Some(UnknownTool(tool))
    else if !call.fields[ARGUMENTS].JObject? then Some(ArgumentsNotObject(tool))
    else None
  }

  /** A name that a tool has. */
  predicate NamesTool(tool: Json) {
    tool == JString(Points("lookup_data")) || tool == JString(Points("build_scenario")) ||
    tool == JString(Points("run_engine")) || tool == JString(Points("narrate_results")) ||
    tool == JString(Points("create_export"))
  }

  /** A call is accepted exactly when it names a tool and its arguments are an object; its refusal says
      whether the name cannot be looked up, is no tool's, or is a tool's without object arguments. */
  lemma RefusalMeans(call: Json)
    requires IsToolCall(call)
    ensures var tool, arguments := call.fields[TOOL], call.fields[ARGUMENTS];
      (Refusal(call) == None <==> NamesTool(tool) && arguments.JObject?) &&
      (Refusal(call) == Some(UnhashableTool) <==> tool.JArray? || tool.JObject?) &&
      (Refusal(call) == Some(UnknownTool(tool)) <==> !NamesTool(tool) && !tool.JArray? && !tool.JObject?) &&
      (Refusal(call) == Some(ArgumentsNotObject(tool)) <==> NamesTool(tool) && !arguments.JObject?)
  {
    hide Points;
  }

  /** Without confirmation a call is let through exactly when it names one of the three tools that need
      none and its arguments are an object; with confirmation, when it names any tool. */
  lemma AdmittedMeans(call: Json, confirmed: bool)
    requires IsToolCall(call)
    ensures var tool, arguments := call.fields[TOOL], call.fields[ARGUMENTS];
      Admitted(call, confirmed) <==>
      arguments.JObject? && NamesTool(tool) &&
      (confirmed || (tool != JString(Points("build_scenario")) && tool != JString(Points("run_engine"))))
    ensures Refusal(call).None? ==>
      JString(AsToolCall(call).name) == call.fields[TOOL] && AsToolCall(call).arguments == call.fields[ARGUMENTS]
  {
    hide Points;
    RefusalMeans(call);
  }

  predicate Sound(calls: seq<Json>) {
    forall k :: 0 <= k < |calls| ==> IsToolCall(calls[k])
  }

  function AsToolCall(call: Json): ToolCall
    requires IsToolCall(call) && Refusal(call).None?
  {
    ToolCall(call.fields[TOOL].s, call.fields[ARGUMENTS])
  }

  /** Accepted, and not held back by the gate. */
  predicate Admitted(call: Json, confirmed: bool)
    requires IsToolCall(call)
  {
    Refusal(call).None? && (AsToolCall(call).name in GATED_TOOLS ==> confirmed)
  }

  method ProcessTurn(content: string, confirmed: bool, loads: Loads) returns (turn: Turn)
    ensures Describes(turn, Calls(content, 0, loads), confirmed)
  {
    hide Calls;
    var raw := ParseToolCalls(content, loads);
    CallsAreToolCalls(content, 0, loads);
    var toolCalls: seq<ToolCall> := [];
    for k := 0 to |raw|
      invariant |toolCalls| == k && AdmittedUpTo(raw, k, confirmed)
      invariant forall l :: 0 <= l < k ==> toolCalls[l] == AsToolCall(raw[l])
    {
      var refusal := Refusal(raw[k]);
      if refusal.Some? {
        turn := Raised(refusal.value);
        assert Stopped(turn, raw[k], confirmed);
        return;
      }
      var call := AsToolCall(raw[k]);
      if call.name in GATED_TOOLS && !confirmed {
        turn := Pending(call);
        assert Stopped(turn, raw[k], confirmed);
        return;
      }
      toolCalls := toolCalls + [call];
    }
    turn := Completed(toolCalls);
  }

  lemma {:induction false} CallsAreToolCalls(text: string, i: nat, loads: Loads)
    ensures Sound(Calls(text, i, loads))
    decreases |text| - i
  {
    hide BlockAt;
    if i < |text| {
      if e: nat :| BlockAt(text, i, e) {
        BlockInside(text, i, e);
        CallsAtBlock(text, i, e, loads);
        CallsAreToolCalls(text, e, loads);
      } else {
        CallsAreToolCalls(text, i + 1, loads);
      }
    }
  }

  predicate AdmittedUpTo(calls: seq<Json>, k: nat, confirmed: bool) {
    k <= |calls| && Sound(calls) && forall l :: 0 <= l < k ==> Admitted(calls[l], confirmed)
  }

  /** What a turn's outcome says about the calls in the reply: every call was admitted and is
      returned, or some call was the first not to be and decides the outcome. */
  predicate Describes(turn: Turn, calls: seq<Json>, confirmed: bool) {
    Sound(calls) &&
    match turn
    case Completed(toolCalls) =>
      AdmittedUpTo(calls, |calls|, confirmed) && |toolCalls| == |calls| &&
      forall k :: 0 <= k < |calls| ==> toolCalls[k] == AsToolCall(calls[k])
    case _ =>
      exists k :: 0 <= k < |calls| && AdmittedUpTo(calls, k, confirmed) && Stopped(turn, calls[k], confirmed)
  }

  /** The call that ended the turn: refused, or gated and not confirmed. */
  predicate Stopped(t: Turn, call: Json, confirmed: bool) {
    IsToolCall(call) &&
    match t
    case Completed(_) => false
    case Pending(c) =>
      !confirmed && Refusal(call).None? && AsToolCall(call) == c && c.name in GATED_TOOLS
    case Raised(r) => Refusal(call) == Some(r)
  }

  /** The description leaves one possible outcome. */
  lemma OutcomeUnique(calls: seq<Json>, confirmed: bool, t: Turn, t': Turn)
    requires Describes(t, calls, confirmed) && Describes(t', calls, confirmed)
    ensures t == t'
  {
  }

  /** The call names a tool, has object arguments, and is confirmed or needs no confirmation. */
  predicate LetThrough(call: Json, confirmed: bool)
    requires IsToolCall(call)
  {
    var tool := call.fields[TOOL];
    NamesTool(tool) && call.fields[ARGUMENTS].JObject? &&
    (confirmed || (tool != JString(Points("build_scenario")) && tool != JString(Points("run_engine"))))
  }

  /** Name and arguments are the call's. */
  predicate SameCall(c: ToolCall, call: Json)
    requires IsToolCall(call)
  {
    JString(c.name) == call.fields[TOOL] && c.arguments == call.fields[ARGUMENTS]
  }

  lemma LetThroughIs(call: Json, confirmed: bool)
    requires IsToolCall(call)
    ensures LetThrough(call, confirmed) <==> Admitted(call, confirmed)
    ensures Refusal(call).None? ==> SameCall(AsToolCall(call), call)
  {
    AdmittedMeans(call, confirmed);
  }

  /** What an outcome means for the calls in the reply: all let through and returned in order; or, of the
      first that is not, either it is accepted and pending, or it is refused and raised. */
  lemma TurnMeans(calls: seq<Json>, confirmed: bool, t: Turn)
    requires Describes(t, calls, confirmed)
    ensures forall k :: 0 <= k < |calls| ==> IsToolCall(calls[k])
    ensures t.Completed? <==> forall k :: 0 <= k < |calls| ==> LetThrough(calls[k], confirmed)
    ensures t.Completed? ==> |t.toolCalls| == |calls|
    ensures t.Completed? ==> forall k :: 0 <= k < |calls| ==> SameCall(t.toolCalls[k], calls[k])
    ensures !t.Completed? ==> exists k ::
      0 <= k < |calls| && !LetThrough(calls[k], confirmed) &&
      (forall l :: 0 <= l < k ==> LetThrough(calls[l], confirmed)) &&
      (t.Pending? ==> LetThrough(calls[k], true) && SameCall(t.call, calls[k])) &&
      (t.Raised? ==> !LetThrough(calls[k], true) && Refusal(calls[k]) == Some(t.rejection))
  {
    hide LetThrough, SameCall, Refusal, IsToolCall;
    forall k | 0 <= k < |calls|
      ensures IsToolCall(calls[k])
      ensures LetThrough(calls[k], confirmed) <==> Admitted(calls[k], confirmed)
      ensures LetThrough(calls[k], true) <==> Refusal(calls[k]).None?
      ensures Refusal(calls[k]).None? ==> SameCall(AsToolCall(calls[k]), calls[k])
    {
      LetThroughIs(calls[k], confirmed);
      LetThroughIs(calls[k], true);
    }
    if !t.Completed? {
      var k :| 0 <= k < |calls| && AdmittedUpTo(calls, k, confirmed) && Stopped(t, calls[k], confirmed);
      assert !Admitted(calls[k], confirmed);
      assert !LetThrough(calls[k], confirmed) && forall l :: 0 <= l < k ==> LetThrough(calls[l], confirmed);
    }
  }

  /** Safety: without confirmation no gated tool is ever among the returned calls, and every
      returned call names a known tool and carries an object. */
  lemma NothingGatedUnconfirmed(calls: seq<Json>, t: Turn, k: nat)
    requires Describes(t, calls, false) && t.Completed? && k < |t.toolCalls|
    ensures t.toolCalls[k].name in VALID_TOOLS - GATED_TOOLS && t.toolCalls[k].arguments.JObject?
  {
  }

  /** Confirming changes only turns that were pending: any other outcome is the same with and
      without confirmation, and a confirmed turn is never pending. */
  lemma ConfirmationOnlyUnblocks(calls: seq<Json>, t: Turn, t': Turn)
    requires Describes(t, calls, false) && Describes(t', calls, true)
    ensures !t'.Pending?
    ensures t == t' <==> !t.Pending?
  {
  }

  // ---------- tool names that validation cannot look up ----------

  /** The name is a list or an object, which Python cannot look up in a set. */
  predicate Unhashable(call: Json)
    requires IsToolCall(call)
  {
    call.fields[TOOL].JArray? || call.fields[TOOL].JObject?
  }

  /** A turn ends in the undocumented TypeError exactly when some call has a list or object for its
      name and every call before it was admitted; otherwise a refusal is the documented error. */
  lemma UnhashableExactly(calls: seq<Json>, confirmed: bool, t: Turn)
    requires Describes(t, calls, confirmed)
    ensures t == Raised(UnhashableTool) <==>
      exists k :: 0 <= k < |calls| && AdmittedUpTo(calls, k, confirmed) && Unhashable(calls[k])
  {
    if k :| 0 <= k < |calls| && AdmittedUpTo(calls, k, confirmed) && Unhashable(calls[k]) {
      assert Stopped(Raised(UnhashableTool), calls[k], confirmed);
      OutcomeUnique(calls, confirmed, t, Raised(UnhashableTool));
    }
  }

  const SECOND := LastMember(" ", Unquoted("arguments"), "", " ", EmptyObject(""), "")

  /** An object whose tool name is an empty list, and its text. */
  const LIST_NAMED := Object(MoreMembers("", Unquoted("tool"), "", " ", EmptyArray(""), "", SECOND))
  const LIST_NAMED_TEXT := "{\"tool\": [], \"arguments\": {}}"
  lemma ListNamedValid()
    ensures Valid(LIST_NAMED)
  {
  }

  /** How a member with a plain key, and white space only before its value, prints. */
  lemma {:induction false} MemberPrints(ms: Members, key: string)
    requires ms.key == Unquoted(key) && ms.colonBefore == "" && ms.colonAfter == " " && ms.after == ""
    ensures PrintMembers(ms) == ms.before + ("\"" + key + "\": ") + Print(ms.value) + MoreMembersText(ms)
  {
    hide Print, MoreMembersText, Unquoted;
    UnquotedPrints(key);
    assert Quoted(ms.key) + Colon(ms) == "\"" + key + "\": ";
  }

  lemma ListNamedPieces()
    ensures Print(LIST_NAMED) == "{" + PrintMembers(LIST_NAMED.members) + "}"
    ensures Print(LIST_NAMED.members.value) == "[]" && Print(SECOND.value) == "{}"
    ensures MoreMembersText(SECOND) == ""
    ensures MoreMembersText(LIST_NAMED.members) == "," + PrintMembers(SECOND)
  {
    hide Unquoted, PrintMembers;
  }

  lemma ListNamedPrints()
    ensures Print(LIST_NAMED) == LIST_NAMED_TEXT
  {
    hide Print, PrintMembers, MoreMembersText, Unquoted;
    ListNamedPieces();
    MemberPrints(LIST_NAMED.members, "tool");
    MemberPrints(SECOND, "arguments");
    Spelled();
  }

  lemma SpelledSecond()
    ensures " " + ("\"" + "arguments" + "\": ") + "{}" + "" == " \"arguments\": {}"
  {
  }

  lemma SpelledFirst()
    ensures "" + ("\"" + "tool" + "\": ") + "[]" == "\"tool\": []"
  {
  }

  lemma Spelled()
    ensures "{" + ("" + ("\"" + "tool" + "\": ") + "[]" +
      ("," + (" " + ("\"" + "arguments" + "\": ") + "{}" + ""))) + "}" == LIST_NAMED_TEXT
  {
    SpelledFirst();
    SpelledSecond();
  }

  lemma KeysDiffer()
    ensures TOOL != ARGUMENTS
  {
    assert |TOOL| == 4 && |ARGUMENTS| == 9;
  }

  /** An object of two members, the first "tool" with a list and the second "arguments". */
  lemma {:induction false} TwoMembersCall(ms: Members)
    requires ValidMembers(ms) && ms.MoreMembers? && ValidMembers(ms.rest)
    requires ms.rest.LastMember? && ms.value.EmptyArray?
    requires Decoded(ms.key) == TOOL && Decoded(ms.rest.key) == ARGUMENTS
    ensures IsToolCall(Meaning(Object(ms))) && Unhashable(Meaning(Object(ms)))
  {
    hide Decoded, TOOL, ARGUMENTS, Valid;
    KeysDiffer();
    assert Fields(ms) == map[TOOL := JArray([])] + Fields(ms.rest);
    assert Fields(ms.rest) == map[ARGUMENTS := Meaning(ms.rest.value)] + map[];
  }

  /** The meaning of the text is a call whose name is a list. */
  lemma ListNamedIsCall()
    ensures Valid(LIST_NAMED) && IsToolCall(Meaning(LIST_NAMED)) && Unhashable(Meaning(LIST_NAMED))
  {
    ListNamedValid();
    UnquotedDecodes("tool");
    UnquotedDecodes("arguments");
    hide Unquoted, Decoded, Valid;
    TwoMembersCall(LIST_NAMED.members);
  }

  /** On that text the parser finds the one call, when the library reads it back. */
  lemma ListNamedCalled(loads: Loads)
    requires Valid(LIST_NAMED) && loads(LIST_NAMED_TEXT) == Some(Meaning(LIST_NAMED))
    ensures Calls(LIST_NAMED_TEXT, 0, loads) == [Meaning(LIST_NAMED)]
  {
    hide Calls, Valid, Print, Meaning, HasBothKeys, IsToolCall, LIST_NAMED_TEXT;
    assert IsObject(LIST_NAMED);
    ListNamedPrints();
    ListNamedIsCall();
    hide LIST_NAMED;
    KeptExactly(LIST_NAMED);
    OneObjectReply(LIST_NAMED, loads);
  }

  /** Such a turn exists: on a reply that is this text, every turn ends in the TypeError, with and
      without confirmation. */
  lemma ListNamedRaises(loads: Loads, confirmed: bool, t: Turn)
    requires Valid(LIST_NAMED) && loads(LIST_NAMED_TEXT) == Some(Meaning(LIST_NAMED))
    requires Describes(t, Calls(LIST_NAMED_TEXT, 0, loads), confirmed)
    ensures t == Raised(UnhashableTool)
  {
    hide Calls, Unhashable, IsToolCall, Admitted, Meaning, Valid, LIST_NAMED, LIST_NAMED_TEXT;
    var calls := Calls(LIST_NAMED_TEXT, 0, loads);
    ListNamedCalled(loads);
    ListNamedIsCall();
    assert AdmittedUpTo(calls, 0, confirmed) && Unhashable(calls[0]);
    UnhashableExactly(calls, confirmed, t);
  }
}
