/** The brace scanner of the copilot: from an opening brace it finds the shortest balanced block,
    skipping braces inside JSON string literals, and its independent reading as a grammar. */
module Scanner {
  import opened Options

  // ---------- the scanning automaton ----------

  datatype State = State(depth: int, inString: bool, escaped: bool)

  const START := State(0, false, false)

  function Step(s: State, ch: char): State {
    if s.escaped then s.(escaped := false)
    else if ch == '\\' && s.inString then s.(escaped := true)
    else if ch == '"' then s.(inString := !s.inString)
    else if s.inString then s
    else if ch == '{' then s.(depth := s.depth + 1)
    else if ch == '}' then s.(depth := s.depth - 1)
    else s
  }

  function Run(s: State, text: string): State
    decreases |text|
  {
    if text == "" then s else Run(Step(s, text[0]), text[1..])
  }

  /** The string-aware depth of the text between two positions. */
  function Depth(text: string, start: nat, end: nat): int
    requires start <= end <= |text|
  {
    Run(START, text[start..end]).depth
  }

  /** text[start..end] opens with a brace and is the first piece whose depth returns to zero. */
  predicate BlockAt(text: string, start: nat, end: nat) {
    start < end <= |text| && text[start] == '{' && Depth(text, start, end) == 0 &&
    forall k :: start < k < end ==> Depth(text, start, k) > 0
  }

  lemma {:induction false} RunConcat(s: State, a: string, b: string)
    ensures Run(s, a + b) == Run(Run(s, a), b)
    decreases |a|
  {
    if a == "" {
      assert a + b == b;
    } else {
      assert (a + b)[1..] == a[1..] + b;
      RunConcat(Step(s, a[0]), a[1..], b);
    }
  }

  lemma {:induction false} RunOne(s: State, text: string, i: nat, k: nat)
    requires i <= k < |text|
    ensures Run(s, text[i..k + 1]) == Step(Run(s, text[i..k]), text[k])
  {
    assert text[i..k + 1] == text[i..k] + [text[k]];
    RunConcat(s, text[i..k], [text[k]]);
    assert Run(Run(s, text[i..k]), [text[k]]) == Step(Run(s, text[i..k]), text[k]);
  }

  lemma RunNothing(text: string, start: nat)
    requires start <= |text|
    ensures Run(START, text[start..start]) == START
  {
  }

  lemma BlockUnique(text: string, start: nat, e: nat, e': nat)
    requires BlockAt(text, start, e) && BlockAt(text, start, e')
    ensures e == e'
  {
  }

  /** The scanner: the block starting at `start`, or None when the braces never balance. */
  method ExtractBalancedBraces(text: string, start: nat) returns (r: Option<string>)
    ensures r.Some? ==>
      BlockAt(text, start, start + |r.value|) && r.value == text[start..start + |r.value|]
    ensures r.None? <==> forall end :: !BlockAt(text, start, end)
  {
    hide Run;
    if start >= |text| || text[start] != '{' {
      return None;
    }
    RunNothing(text, start);
    var depth := 0;
    var inString := false;
    var escapeNext := false;
    for i := start to |text|
      invariant State(depth, inString, escapeNext) == Run(START, text[start..i])
      invariant i == start ==> depth == 0
      invariant forall k :: start < k <= i ==> Depth(text, start, k) > 0
    {
      var ch := text[i];
      RunOne(START, text, start, i);
      assert i > start ==> Depth(text, start, i) > 0;
      if escapeNext {
        escapeNext := false;
      } else if ch == '\\' && inString {
        escapeNext := true;
      } else if ch == '"' {
        inString := !inString;
      } else if inString {
      } else if ch == '{' {
        depth := depth + 1;
      } else if ch == '}' {
        depth := depth - 1;
        if depth == 0 {
          assert BlockAt(text, start, i + 1);
          return Some(text[start..i + 1]);
        }
      }
    }
    r := None;
  }

  // ---------- the grammar ----------

  /** One piece of a string literal: an ordinary character or a backslash with what follows it. */
  datatype Unit = Raw(c: char) | Escape(c: char)

  /** What may stand between two matching braces: characters that are neither braces nor quotes,
      string literals, and nested blocks. */
  datatype Items =
    | End
    | Plain(c: char, rest: Items)
    | Literal(body: seq<Unit>, rest: Items)
    | Block(inner: Items, rest: Items)

  predicate WellFormed(items: Items) {
    match items
    case End => true
    case Plain(c, rest) => c != '{' && c != '}' && c != '"' && WellFormed(rest)
    case Literal(body, rest) =>
      (forall k :: 0 <= k < |body| && body[k].Raw? ==> body[k].c != '"' && body[k].c != '\\') &&
      WellFormed(rest)
    case Block(inner, rest) => WellFormed(inner) && WellFormed(rest)
  }

  function RenderUnits(body: seq<Unit>): string {
    if body == [] then "" else
      (match body[0] case Raw(c) => [c] case Escape(c) => ['\\', c]) + RenderUnits(body[1..])
  }

  function Render(items: Items): string
    decreases items, 0
  {
    match items
    case End => ""
    case Plain(c, rest) => [c] + Render(rest)
    case Literal(body, rest) => "\"" + RenderUnits(body) + "\"" + Render(rest)
    case Block(inner, rest) => Braced(inner) + Render(rest)
  }

  function Braced(inner: Items): string
    decreases inner, 1
  {
    "{" + Render(inner) + "}"
  }

  // ---------- the scanner accepts the grammar ----------

  /** Along the whole text the depth stays at least d. */
  predicate Stays(s: State, text: string, d: int) {
    forall k :: 0 <= k <= |text| ==> Run(s, text[..k]).depth >= d
  }

  lemma {:induction false} StaysConcat(s: State, a: string, b: string, d: int)
    requires Stays(s, a, d) && Stays(Run(s, a), b, d)
    ensures Stays(s, a + b, d)
  {
    forall k | 0 <= k <= |a + b| ensures Run(s, (a + b)[..k]).depth >= d {
      if k <= |a| {
        assert (a + b)[..k] == a[..k];
      } else {
        assert (a + b)[..k] == a + b[..k - |a|];
        RunConcat(s, a, b[..k - |a|]);
      }
    }
  }

  lemma {:induction false} StaysOne(s: State, c: char, d: int)
    requires s.depth >= d && Step(s, c).depth >= d
    ensures Stays(s, [c], d) && Run(s, [c]) == Step(s, c)
  {
    assert [c][..0] == "" && [c][..1] == [c];
  }

  lemma {:induction false} RunUnits(s: State, body: seq<Unit>)
    requires s.inString && !s.escaped
    requires forall k :: 0 <= k < |body| && body[k].Raw? ==> body[k].c != '"' && body[k].c != '\\'
    ensures Run(s, RenderUnits(body)) == s && Stays(s, RenderUnits(body), s.depth)
  {
    if body != [] {
      var rest := RenderUnits(body[1..]);
      RunUnits(s, body[1..]);
      match body[0] {
        case Raw(c) =>
          StaysOne(s, c, s.depth);
          RunConcat(s, [c], rest);
          StaysConcat(s, [c], rest, s.depth);
        case Escape(c) =>
          var s' := s.(escaped := true);
          StaysOne(s, '\\', s.depth);
          StaysOne(s', c, s.depth);
          RunConcat(s, ['\\'], [c] + rest);
          RunConcat(s', [c], rest);
          StaysConcat(s', [c], rest, s.depth);
          StaysConcat(s, ['\\'], [c] + rest, s.depth);
          assert ['\\'] + ([c] + rest) == ['\\', c] + rest;
      }
    }
  }

  lemma {:induction false} RunLiteral(s: State, body: seq<Unit>)
    requires !s.inString && !s.escaped
    requires forall k :: 0 <= k < |body| && body[k].Raw? ==> body[k].c != '"' && body[k].c != '\\'
    ensures var t := "\"" + RenderUnits(body) + "\"";
      Run(s, t) == s && Stays(s, t, s.depth)
  {
    var s', b := s.(inString := true), RenderUnits(body);
    RunUnits(s', body);
    StaysOne(s, '"', s.depth);
    StaysOne(s', '"', s.depth);
    RunConcat(s, "\"", b);
    StaysConcat(s, "\"", b, s.depth);
    RunConcat(s, "\"" + b, "\"");
    StaysConcat(s, "\"" + b, "\"", s.depth);
  }

  /** Scanning well-formed items changes nothing and never dips below the starting depth. */
  lemma {:induction false} RunItems(s: State, items: Items)
    requires !s.inString && !s.escaped && WellFormed(items)
    ensures Run(s, Render(items)) == s && Stays(s, Render(items), s.depth)
    decreases items
  {
    match items {
      case End =>
      case Plain(c, rest) =>
        RunItems(s, rest);
        StaysOne(s, c, s.depth);
        Then(s, [c], Render(rest));
      case Literal(body, rest) =>
        RunItems(s, rest);
        RunLiteral(s, body);
        Then(s, "\"" + RenderUnits(body) + "\"", Render(rest));
      case Block(inner, rest) =>
        RunItems(s, rest);
        RunItems(s.(depth := s.depth + 1), inner);
        RunBraced(s, inner);
        Then(s, Braced(inner), Render(rest));
    }
  }

  lemma {:induction false} Then(s: State, a: string, b: string)
    requires Run(s, a) == s && Stays(s, a, s.depth) && Run(s, b) == s && Stays(s, b, s.depth)
    ensures Run(s, a + b) == s && Stays(s, a + b, s.depth)
  {
    RunConcat(s, a, b);
    StaysConcat(s, a, b, s.depth);
  }

  lemma RunBraced(s: State, inner: Items)
    requires !s.inString && !s.escaped
    requires var s' := s.(depth := s.depth + 1);
      Run(s', Render(inner)) == s' && Stays(s', Render(inner), s'.depth)
    ensures Run(s, Braced(inner)) == s && Stays(s, Braced(inner), s.depth)
    ensures forall k :: 0 < k < |Braced(inner)| ==> Run(s, Braced(inner)[..k]).depth > s.depth
  {
    var s', t := s.(depth := s.depth + 1), Render(inner);
    StaysOne(s, '{', s.depth);
    StaysOne(s', '}', s.depth);
    RunConcat(s, "{", t);
    RunConcat(s, "{" + t, "}");
    forall k | 0 < k < |Braced(inner)| ensures Run(s, Braced(inner)[..k]).depth > s.depth {
      assert Braced(inner)[..k] == "{" + t[..k - 1];
      RunConcat(s, "{", t[..k - 1]);
    }
    forall k | 0 <= k <= |Braced(inner)| ensures Run(s, Braced(inner)[..k]).depth >= s.depth {
      if k == 0 {
        assert Braced(inner)[..0] == "";
      } else if k == |Braced(inner)| {
        assert Braced(inner)[..k] == Braced(inner);
      }
    }
  }

  /** A braced well-formed block at `start`, whatever follows it, is exactly what is extracted. */
  lemma {:induction false} BracedIsBlock(text: string, start: nat, inner: Items)
    requires WellFormed(inner) && start + |Braced(inner)| <= |text|
    requires text[start..start + |Braced(inner)|] == Braced(inner)
    ensures BlockAt(text, start, start + |Braced(inner)|)
  {
    var t, end := Braced(inner), start + |Braced(inner)|;
    RunItems(START.(depth := 1), inner);
    RunBraced(START, inner);
    assert text[start] == t[0];
    forall k | start < k < end ensures Depth(text, start, k) > 0 {
      assert text[start..k] == t[..k - start];
    }
  }
}
