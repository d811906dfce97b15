/** Tool calls in a model's reply: finding their texts and parsing them. `loads` stands for the JSON
    library; it is any function from text to a parsed value or a decoding error. */
module Copilot {
  import opened Options
  import opened Scanner
  import opened JsonText
  import opened JsonMeaning

  type Loads = string -> Option<Json>

  const TOOL := Points("tool")
  const ARGUMENTS := Points("arguments")

  predicate IsToolCall(j: Json) {
    j.JObject? && TOOL in j.fields && ARGUMENTS in j.fields
  }

  // ---------- finding the calls ----------

  /** A parsed block is kept when it is an object with both keys; a decoding error is skipped. */
  function Kept(parsed: Option<Json>): seq<Json> {
    if parsed.Some? && IsToolCall(parsed.value) then [parsed.value] else []
  }

  /** The spans handed to the JSON library from position i on: the block at i if there is one, and
      then what comes after it; otherwise on from the next character. */
  ghost function Spans(text: string, i: nat): seq<(nat, nat)>
    decreases |text| - i
  {
    if i >= |text| then []
    else if e: nat :| BlockAt(text, i, e) then [(i, e)] + Spans(text, e)
    else Spans(text, i + 1)
  }

  ghost function Calls(text: string, i: nat, loads: Loads): seq<Json>
    decreases |text| - i
  {
    if i >= |text| then []
    else if e: nat :| BlockAt(text, i, e) then Kept(loads(text[i..e])) + Calls(text, e, loads)
    else Calls(text, i + 1, loads)
  }

  lemma {:induction false} CallsAtBlock(text: string, i: nat, e: nat, loads: Loads)
    requires BlockAt(text, i, e)
    ensures Calls(text, i, loads) == Kept(loads(text[i..e])) + Calls(text, e, loads)
  {
  }

  lemma {:induction false} SpansAtBlock(text: string, i: nat, e: nat)
    requires BlockAt(text, i, e)
    ensures Spans(text, i) == [(i, e)] + Spans(text, e)
  {
  }

  lemma CallsWithoutBlock(text: string, i: nat, loads: Loads)
    requires i < |text| && forall e :: !BlockAt(text, i, e)
    ensures Calls(text, i, loads) == Calls(text, i + 1, loads)
  {
  }

  method ParseToolCalls(content: string, loads: Loads) returns (toolCalls: seq<Json>)
    ensures toolCalls == Calls(content, 0, loads)
  {
    hide BlockAt, Calls;
    toolCalls := [];
    var i := 0;
    while i < |content|
      invariant 0 <= i <= |content|
      invariant toolCalls + Calls(content, i, loads) == Calls(content, 0, loads)
    {
      if content[i] == '{' {
        var block := ExtractBalancedBraces(content, i);
        if block.Some? && block.value != "" {
          var text := block.value;
          BlockInside(content, i, i + |text|);
          CallsAtBlock(content, i, i + |text|, loads);
          var parsed := loads(text);
          if parsed.Some? && IsToolCall(parsed.value) {
            toolCalls := toolCalls + [parsed.value];
          }
          i := i + |text|;
        } else {
          NoBlockWhenEmpty(content, i, block);
          CallsWithoutBlock(content, i, loads);
          i := i + 1;
        }
      } else {
        NoBlockWithoutBrace(content, i);
        CallsWithoutBlock(content, i, loads);
        i := i + 1;
      }
    }
    CallsAtEnd(content, loads);
  }

  lemma {:induction false} CallsAtEnd(text: string, loads: Loads)
    ensures Calls(text, |text|, loads) == []
  {
  }

  lemma BlockInside(text: string, i: nat, e: nat)
    requires BlockAt(text, i, e)
    ensures i < e <= |text|
  {
  }

  lemma NoBlockWithoutBrace(text: string, i: nat)
    requires i < |text| && text[i] != '{'
    ensures forall e :: !BlockAt(text, i, e)
  {
  }

  /** The scanner never returns an empty block, so the truth test on its result only sees None. */
  lemma NoBlockWhenEmpty(text: string, i: nat, block: Option<string>)
    requires block.None? || block.value == ""
    requires block.Some? ==> BlockAt(text, i, i + |block.value|)
    requires block.None? ==> forall e :: !BlockAt(text, i, e)
    ensures forall e :: !BlockAt(text, i, e)
  {
  }

  /** The calls are what the library makes of the spans, in order. */
  lemma {:induction false} CallsFromSpans(text: string, i: nat, loads: Loads)
    ensures Calls(text, i, loads) == KeptOf(text, Spans(text, i), loads)
    decreases |text| - i
  {
    SpansOrdered(text, i);
    if i < |text| {
      if e: nat :| BlockAt(text, i, e) {
        CallsAtBlock(text, i, e, loads);
        SpansAtBlock(text, i, e);
        CallsFromSpans(text, e, loads);
        assert ([(i, e)] + Spans(text, e))[1..] == Spans(text, e);
      } else {
        CallsFromSpans(text, i + 1, loads);
      }
    }
  }

  ghost function KeptOf(text: string, spans: seq<(nat, nat)>, loads: Loads): seq<Json> {
    if spans == [] then [] else
      var (s, e) := spans[0];
      (if s <= e <= |text| then Kept(loads(text[s..e])) else []) + KeptOf(text, spans[1..], loads)
  }

  /** Every span is a block of the text; spans increase and do not overlap. */
  lemma {:induction false} SpansOrdered(text: string, i: nat)
    ensures forall k :: 0 <= k < |Spans(text, i)| ==>
      i <= Spans(text, i)[k].0 && BlockAt(text, Spans(text, i)[k].0, Spans(text, i)[k].1)
    ensures forall k, l :: 0 <= k < l < |Spans(text, i)| ==>
      Spans(text, i)[k].1 <= Spans(text, i)[l].0
    decreases |text| - i
  {
    hide BlockAt;
    if i < |text| {
      if e: nat :| BlockAt(text, i, e) {
        BlockInside(text, i, e);
        SpansAtBlock(text, i, e);
        SpansOrdered(text, e);
      } else {
        SpansOrdered(text, i + 1);
      }
    }
  }

  /** Nothing is missed: a block of the text is a span or starts inside an earlier one. */
  lemma {:induction false} SpansMissNothing(text: string, i: nat, p: nat, e: nat)
    requires i <= p && BlockAt(text, p, e)
    ensures (p, e) in Spans(text, i) ||
      exists k :: 0 <= k < |Spans(text, i)| && Spans(text, i)[k].0 < p < Spans(text, i)[k].1
    decreases |text| - i
  {
    BlockInside(text, p, e);
    hide BlockAt;
    if e0: nat :| BlockAt(text, i, e0) {
      BlockInside(text, i, e0);
      SpansAtBlock(text, i, e0);
      var rest := Spans(text, e0);
      assert Spans(text, i)[0] == (i, e0);
      if p == i {
        BlockUnique(text, i, e, e0);
      } else if e0 <= p {
        SpansMissNothing(text, e0, p, e);
        if (p, e) !in rest {
          var k :| 0 <= k < |rest| && rest[k].0 < p < rest[k].1;
          assert Spans(text, i)[k + 1] == rest[k];
        }
      }
    } else {
      SpansMissNothing(text, i + 1, p, e);
    }
  }

  // ---------- replies made of prose and objects ----------

  datatype Segment = Prose(text: string) | Embedded(value: Value)

  predicate ValidSegment(s: Segment) {
    match s
    case Prose(text) => '{' !in text
    case Embedded(v) => Valid(v) && IsObject(v)
  }

  predicate ValidSegments(segments: seq<Segment>) {
    forall k :: 0 <= k < |segments| ==> ValidSegment(segments[k])
  }

  function SegmentText(s: Segment): string {
    match s case Prose(text) => text case Embedded(v) => Print(v)
  }

  function Reply(segments: seq<Segment>): string {
    if segments == [] then "" else SegmentText(segments[0]) + Reply(segments[1..])
  }

  function ExpectedCalls(segments: seq<Segment>, loads: Loads): seq<Json> {
    if segments == [] then [] else
      (if segments[0].Embedded? then Kept(loads(Print(segments[0].value))) else []) +
      ExpectedCalls(segments[1..], loads)
  }

  lemma {:induction false} ProseSkipped(text: string, i: nat, n: nat, loads: Loads)
    requires i + n <= |text| && '{' !in text[i..i + n]
    ensures Calls(text, i, loads) == Calls(text, i + n, loads)
    decreases n
  {
    if n > 0 {
      assert text[i] == text[i..i + n][0];
      NoBlockWithoutBrace(text, i);
      assert text[i + 1..i + n] == text[i..i + n][1..];
      ProseSkipped(text, i + 1, n - 1, loads);
    }
  }

  lemma SplitText(text: string, i: nat, piece: string, rest: string)
    requires i <= |text| && text[i..] == piece + rest
    ensures i + |piece| <= |text|
    ensures text[i..i + |piece|] == piece && text[i + |piece|..] == rest
  {
  }

  lemma {:induction false} SegmentsFrom(text: string, i: nat, segments: seq<Segment>, loads: Loads)
    requires i <= |text| && text[i..] == Reply(segments) && ValidSegments(segments)
    ensures Calls(text, i, loads) == ExpectedCalls(segments, loads)
    decreases |segments|
  {
    hide BlockAt, Print;
    if segments != [] {
      var piece := SegmentText(segments[0]);
      var j := i + |piece|;
      SplitText(text, i, piece, Reply(segments[1..]));
      hide Reply, Calls;
      SegmentsFrom(text, j, segments[1..], loads);
      match segments[0] {
        case Prose(_) =>
          ProseSkipped(text, i, |piece|, loads);
        case Embedded(v) =>
          ObjectExtracted(v, text, i);
          CallsAtBlock(text, i, j, loads);
      }
    }
  }

  /** For any interleaving of brace-free prose and JSON objects, what reaches the JSON library is
      exactly the text of each object, in order, and the calls returned are exactly those parsed
      objects that have both keys. */
  lemma {:induction false} ReplyCalls(segments: seq<Segment>, loads: Loads)
    requires ValidSegments(segments)
    ensures Calls(Reply(segments), 0, loads) == ExpectedCalls(segments, loads)
  {
    assert Reply(segments)[0..] == Reply(segments);
    SegmentsFrom(Reply(segments), 0, segments, loads);
  }

  /** The JSON library reads back what is printed. */
  predicate ReadsBack(loads: Loads, v: Value)
    requires Valid(v)
  {
    loads(Print(v)) == Some(Meaning(v))
  }

  /** An object some of whose members' keys, escapes decoded, are "tool" and "arguments". */
  predicate HasBothKeys(v: Value)
    requires Valid(v)
  {
    v.Object? && HasKey(v.members, TOOL) && HasKey(v.members, ARGUMENTS)
  }

  /** The objects of a reply that have both keys, in order. */
  function MeantCalls(segments: seq<Segment>): seq<Json>
    requires ValidSegments(segments)
  {
    if segments == [] then [] else
      (if segments[0].Embedded? && HasBothKeys(segments[0].value) then [Meaning(segments[0].value)] else []) +
      MeantCalls(segments[1..])
  }

  /** A printed object is kept exactly when its decoded keys include both. */
  lemma {:induction false} KeptExactly(v: Value)
    requires Valid(v) && IsObject(v)
    ensures IsToolCall(Meaning(v)) <==> HasBothKeys(v)
  {
    hide HasKey;
    if v.Object? {
      FieldsKeys(v.members, TOOL);
      FieldsKeys(v.members, ARGUMENTS);
    }
  }

  /** When the library reads back each object of the reply, the calls are the objects whose decoded
      keys include both, in order, each with its meaning. */
  lemma {:induction false} ReplyRoundTrip(segments: seq<Segment>, loads: Loads)
    requires ValidSegments(segments)
    requires forall k :: 0 <= k < |segments| && segments[k].Embedded? ==> ReadsBack(loads, segments[k].value)
    ensures Calls(Reply(segments), 0, loads) == MeantCalls(segments)
  {
    hide Calls, Reply, ReadsBack, Meaning;
    ReplyCalls(segments, loads);
    ExpectedIsMeant(segments, loads);
  }

  lemma {:induction false} ExpectedIsMeant(segments: seq<Segment>, loads: Loads)
    requires ValidSegments(segments)
    requires forall k :: 0 <= k < |segments| && segments[k].Embedded? ==> ReadsBack(loads, segments[k].value)
    ensures ExpectedCalls(segments, loads) == MeantCalls(segments)
  {
    hide Print, Meaning, Valid, HasBothKeys, IsToolCall;
    if segments != [] {
      ExpectedIsMeant(segments[1..], loads);
      if segments[0].Embedded? {
        assert ValidSegment(segments[0]);
        assert ReadsBack(loads, segments[0].value);
        KeptExactly(segments[0].value);
      }
    }
  }

  /** In particular, a reply that is one object with both keys holds that one call. */
  lemma {:induction false} OneObjectReply(v: Value, loads: Loads)
    requires Valid(v) && IsObject(v) && ReadsBack(loads, v) && HasBothKeys(v)
    ensures Calls(Print(v), 0, loads) == [Meaning(v)]
  {
    hide Calls, Valid, Print, Meaning, HasBothKeys, ReadsBack;
    var segments := [Embedded(v)];
    assert segments[1..] == [];
    assert Reply(segments) == Print(v) + Reply([]) == Print(v);
    ReplyRoundTrip(segments, loads);
    assert MeantCalls(segments) == [Meaning(v)] + MeantCalls([]);
  }
}
