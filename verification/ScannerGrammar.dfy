/** The converse of the scanner's completeness: whatever it extracts is a braced block of the
    grammar, recovered here by parsing the scanned text. */
module ScannerGrammar {
  import opened Scanner

  const INSIDE := State(1, false, false)

  /** A text scanned just after an opening brace whose depth first reaches zero at its end. */
  predicate Closing(t: string) {
    t != "" && Run(INSIDE, t).depth == 0 &&
    forall k :: 0 <= k < |t| ==> Run(INSIDE, t[..k]).depth >= 1
  }

  lemma {:induction false} RunPrefix(s: State, t: string, e: nat)
    requires e <= |t|
    ensures Run(s, t) == Run(Run(s, t[..e]), t[e..])
  {
    RunConcat(s, t[..e], t[e..]);
    assert t == t[..e] + t[e..];
  }

  lemma {:induction false} RunNext(s: State, t: string, k: nat)
    requires k < |t|
    ensures Run(s, t[..k + 1]) == Step(Run(s, t[..k]), t[k])
  {
    RunOne(s, t, 0, k);
    assert t[0..k] == t[..k] && t[0..k + 1] == t[..k + 1];
  }

  /** Starting deeper shifts every depth and changes nothing else. */
  lemma {:induction false} RunShift(s: State, d: int, t: string)
    ensures Run(s.(depth := s.depth + d), t) == Run(s, t).(depth := Run(s, t).depth + d)
    decreases |t|
  {
    if t != "" {
      RunShift(Step(s, t[0]), d, t[1..]);
    }
  }

  lemma ClosingSuffix(t: string, e: nat)
    requires Closing(t) && e < |t| && Run(INSIDE, t[..e]) == INSIDE
    ensures Closing(t[e..])
  {
    RunPrefix(INSIDE, t, e);
    forall k | 0 <= k < |t[e..]| ensures Run(INSIDE, t[e..][..k]).depth >= 1 {
      RunPrefix(INSIDE, t[..e + k], e);
      assert t[..e + k][..e] == t[..e] && t[..e + k][e..] == t[e..][..k];
    }
  }

  /** The last character of a closing text is its closing brace, outside any string. */
  lemma {:induction false} ClosingLast(t: string)
    requires Closing(t)
    ensures !Run(INSIDE, t).inString && !Run(INSIDE, t).escaped
  {
    RunNext(INSIDE, t, |t| - 1);
    assert t[..|t|] == t;
  }

  /** After an opening brace at the front, the position where the depth is back to 1. */
  lemma NestedEnd(t: string) returns (e: nat)
    requires Closing(t) && t[0] == '{'
    ensures 2 <= e < |t| && Run(INSIDE, t[..e]) == INSIDE
    ensures forall k :: 1 <= k < e ==> Run(INSIDE, t[..k]).depth >= 2
  {
    RunNext(INSIDE, t, 0);
    assert t[..0] == "" && t[..|t|] == t;
    e := 1;
    while Run(INSIDE, t[..e]).depth >= 2
      invariant 1 <= e <= |t|
      invariant forall k :: 1 <= k < e ==> Run(INSIDE, t[..k]).depth >= 2
      invariant e == 1 ==> Run(INSIDE, t[..e]).depth >= 2
      decreases |t| - e
    {
      e := e + 1;
    }
    RunNext(INSIDE, t, e - 1);
  }

  lemma NestedCloses(t: string, e: nat)
    requires Closing(t) && t[0] == '{' && 2 <= e < |t| && Run(INSIDE, t[..e]) == INSIDE
    requires forall k :: 1 <= k < e ==> Run(INSIDE, t[..k]).depth >= 2
    ensures Closing(t[1..e])
  {
    var u, deeper := t[1..e], INSIDE.(depth := 2);
    forall k | 0 <= k <= |u| ensures Run(INSIDE, u[..k]).depth == Run(INSIDE, t[..k + 1]).depth - 1 {
      RunPrefix(INSIDE, t[..k + 1], 1);
      assert t[..k + 1][..1] == "{" && t[..k + 1][1..] == u[..k];
      StaysOne(INSIDE, '{', 1);
      RunShift(INSIDE, 1, u[..k]);
    }
    assert u[..|u|] == u;
  }

  /** After a quote at the front, the position just past the matching quote. */
  lemma LiteralEnd(t: string) returns (e: nat)
    requires Closing(t) && t[0] == '"'
    ensures 2 <= e < |t| && t[e - 1] == '"' && Run(INSIDE, t[..e]) == INSIDE
    ensures Run(INSIDE, t[..e - 1]) == INSIDE.(inString := true)
    ensures forall k :: 1 <= k < e ==> Run(INSIDE, t[..k]).inString
  {
    ClosingLast(t);
    RunNext(INSIDE, t, 0);
    assert t[..0] == "" && t[..|t|] == t;
    e := 1;
    while Run(INSIDE, t[..e]).inString
      invariant 1 <= e <= |t|
      invariant forall k :: 1 <= k < e ==> Run(INSIDE, t[..k]).inString
      invariant e == 1 ==> Run(INSIDE, t[..e]).inString
      invariant Run(INSIDE, t[..e]).depth == 1
      invariant e > 1 && !Run(INSIDE, t[..e]).inString ==>
        t[e - 1] == '"' && Run(INSIDE, t[..e - 1]) == INSIDE.(inString := true) &&
        Run(INSIDE, t[..e]) == INSIDE
      decreases |t| - e
    {
      RunNext(INSIDE, t, e);
      e := e + 1;
    }
  }

  /** A stretch of text inside a string literal, read as its units. */
  lemma {:induction false} ParseUnits(body: string) returns (units: seq<Unit>)
    requires var q := INSIDE.(inString := true);
      Run(q, body) == q && forall k :: 0 <= k <= |body| ==> Run(q, body[..k]).inString
    ensures RenderUnits(units) == body
    ensures forall k :: 0 <= k < |units| && units[k].Raw? ==> units[k].c != '"' && units[k].c != '\\'
    decreases |body|
  {
    var q := INSIDE.(inString := true);
    if body == "" {
      units := [];
    } else {
      RunNext(q, body, 0);
      assert body[..0] == "";
      assert Run(q, body[..1]).inString;
      var n := if body[0] == '\\' then 2 else 1;
      if n == 2 {
        StaysOne(q, '\\', 1);
        assert |body| == 1 ==> body == ['\\'];
        RunNext(q, body, 1);
      }
      assert Run(q, body[..n]) == q;
      RunPrefix(q, body, n);
      forall k | 0 <= k <= |body[n..]| ensures Run(q, body[n..][..k]).inString {
        RunPrefix(q, body[..n + k], n);
        assert body[..n + k][..n] == body[..n] && body[..n + k][n..] == body[n..][..k];
      }
      var rest := ParseUnits(body[n..]);
      units := [if n == 2 then Escape(body[1]) else Raw(body[0])] + rest;
      assert units[1..] == rest;
    }
  }

  lemma LiteralBody(t: string, e: nat) returns (units: seq<Unit>)
    requires Closing(t) && t[0] == '"' && 2 <= e < |t| && t[e - 1] == '"'
    requires Run(INSIDE, t[..e - 1]) == INSIDE.(inString := true)
    requires forall k :: 1 <= k < e ==> Run(INSIDE, t[..k]).inString
    ensures t[..e] == "\"" + RenderUnits(units) + "\""
    ensures forall k :: 0 <= k < |units| && units[k].Raw? ==> units[k].c != '"' && units[k].c != '\\'
  {
    var body, q := t[1..e - 1], INSIDE.(inString := true);
    forall k | 0 <= k <= |body| ensures Run(q, body[..k]) == Run(INSIDE, t[..k + 1]) {
      RunPrefix(INSIDE, t[..k + 1], 1);
      assert t[..k + 1][..1] == "\"" && t[..k + 1][1..] == body[..k];
      StaysOne(INSIDE, '"', 1);
    }
    assert body[..|body|] == body;
    units := ParseUnits(body);
  }

  predicate IsPlain(c: char) {
    c != '{' && c != '}' && c != '"'
  }

  lemma FirstCharacter(t: string)
    requires Closing(t)
    ensures t[0] == '}' ==> t == "}"
    ensures IsPlain(t[0]) ==> |t| > 1 && Run(INSIDE, t[..1]) == INSIDE
  {
    RunNext(INSIDE, t, 0);
    assert t[..0] == "" && t[..|t|] == t;
    if |t| > 1 {
      assert Run(INSIDE, t[..1]).depth >= 1;
    } else {
      assert t == [t[0]];
    }
  }

  lemma {:induction false} BlockRenders(t: string, e: nat, inner: Items, rest: Items)
    requires 1 <= e <= |t| && t[0] == '{'
    requires t[1..e] == Render(inner) + "}" && t[e..] == Render(rest) + "}"
    ensures t == Render(Block(inner, rest)) + "}"
  {
    assert t == "{" + t[1..e] + t[e..];
  }

  lemma {:induction false} LiteralRenders(t: string, e: nat, body: seq<Unit>, rest: Items)
    requires e <= |t| && t[..e] == "\"" + RenderUnits(body) + "\"" && t[e..] == Render(rest) + "}"
    ensures t == Render(Literal(body, rest)) + "}"
  {
    hide RenderUnits;
    assert t == t[..e] + t[e..];
  }

  lemma {:induction false} PlainRenders(t: string, rest: Items)
    requires t != "" && t[1..] == Render(rest) + "}"
    ensures t == Render(Plain(t[0], rest)) + "}"
  {
    assert t == [t[0]] + t[1..];
  }

  /** The items a closing text consists of, before its closing brace. */
  lemma {:induction false} Parse(t: string) returns (items: Items)
    requires Closing(t)
    ensures WellFormed(items) && t == Render(items) + "}"
    decreases |t|
  {
    FirstCharacter(t);
    if t[0] == '}' {
      items := End;
    } else {
      hide Run, Step, Closing, Render, RenderUnits;
      if t[0] == '{' {
        var e := NestedEnd(t);
        NestedCloses(t, e);
        ClosingSuffix(t, e);
        var inner := Parse(t[1..e]);
        var rest := Parse(t[e..]);
        items := Block(inner, rest);
        BlockRenders(t, e, inner, rest);
      } else if t[0] == '"' {
        var e := LiteralEnd(t);
        var body := LiteralBody(t, e);
        ClosingSuffix(t, e);
        var rest := Parse(t[e..]);
        items := Literal(body, rest);
        LiteralRenders(t, e, body, rest);
      } else {
        ClosingSuffix(t, 1);
        var rest := Parse(t[1..]);
        items := Plain(t[0], rest);
        PlainRenders(t, rest);
      }
    }
  }

  /** Soundness: every extracted block is a braced, well-formed block. */
  lemma BlockIsBraced(text: string, start: nat, end: nat) returns (inner: Items)
    requires BlockAt(text, start, end)
    ensures WellFormed(inner) && text[start..end] == Braced(inner)
  {
    hide Run, Step;
    var t := text[start + 1..end];
    forall k | 0 <= k <= |t| ensures Run(INSIDE, t[..k]).depth == Depth(text, start, start + 1 + k) {
      DepthInside(text, start, start + 1 + k);
      assert text[start + 1..start + 1 + k] == t[..k];
    }
    assert t[..|t|] == t;
    assert t == "" ==> t[..0] == "";
    InsideNotClosed();
    inner := Parse(t);
    assert text[start..end] == "{" + t;
  }

  lemma InsideNotClosed()
    ensures Run(INSIDE, "").depth == 1
  {
  }

  lemma DepthInside(text: string, start: nat, end: nat)
    requires start < end <= |text| && text[start] == '{'
    ensures Depth(text, start, end) == Run(INSIDE, text[start + 1..end]).depth
  {
    var u := text[start + 1..end];
    assert text[start..end] == "{" + u;
    StaysOne(START, '{', 0);
    RunConcat(START, "{", u);
  }

  /** The scanner extracts s at `start` exactly when s is a braced well-formed block standing there. */
  lemma BlockExactlyGrammar(text: string, start: nat, end: nat)
    ensures BlockAt(text, start, end) <==>
      start <= end <= |text| && exists inner :: WellFormed(inner) && text[start..end] == Braced(inner)
  {
    if BlockAt(text, start, end) {
      var inner := BlockIsBraced(text, start, end);
    } else if start <= end <= |text| {
      forall inner | WellFormed(inner) && text[start..end] == Braced(inner) ensures false {
        BracedIsBlock(text, start, inner);
      }
    }
  }
}
