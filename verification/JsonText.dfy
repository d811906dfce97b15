/** JSON texts (RFC 8259, sections 2 to 7) as concrete syntax with every optional white space kept,
    their printing, and the fact that a printed object is one block of the brace grammar. */
module JsonText {
  import opened Options
  import opened Scanner
  import opened ScannerGrammar

  datatype Sign = NoSign | Plus | Minus

  datatype Exponent = NoExponent | Exponent(upper: bool, sign: Sign, digits: string)

  datatype StringChar = Unescaped(c: char) | Short(c: char) | Hex(digits: string)

  datatype Value =
    | Null
    | Bool(b: bool)
    | Number(negative: bool, whole: string, fraction: Option<string>, exponent: Exponent)
    | Text(chars: seq<StringChar>)
    | EmptyArray(space: string)
    | Array(elements: Elements)
    | EmptyObject(space: string)
    | Object(members: Members)

  datatype Elements =
    | LastElement(before: string, value: Value, after: string)
    | MoreElements(before: string, value: Value, after: string, rest: Elements)

  datatype Members =
    | LastMember(before: string, key: seq<StringChar>, colonBefore: string, colonAfter: string,
                 value: Value, after: string)
    | MoreMembers(before: string, key: seq<StringChar>, colonBefore: string, colonAfter: string,
                  value: Value, after: string, rest: Members)

  // ---------- validity ----------

  predicate Space(s: string) {
    forall k :: 0 <= k < |s| ==> s[k] in " \t\n\r"
  }

  predicate Digits(s: string) {
    s != "" && forall k :: 0 <= k < |s| ==> '0' <= s[k] <= '9'
  }

  predicate HexDigit(c: char) {
    '0' <= c <= '9' || 'a' <= c <= 'f' || 'A' <= c <= 'F'
  }

  predicate ValidChar(c: StringChar) {
    match c
    case Unescaped(u) => u >= ' ' && u != '"' && u != '\\'
    case Short(e) => e in "\"\\/bfnrt"
    case Hex(h) => |h| == 4 && forall k :: 0 <= k < 4 ==> HexDigit(h[k])
  }

  predicate ValidChars(chars: seq<StringChar>) {
    forall k :: 0 <= k < |chars| ==> ValidChar(chars[k])
  }

  predicate Valid(v: Value) {
    match v
    case Null => true
    case Bool(_) => true
    case Number(_, whole, fraction, exponent) =>
      Digits(whole) && (|whole| > 1 ==> whole[0] != '0') &&
      (fraction.Some? ==> Digits(fraction.value)) &&
      (exponent.Exponent? ==> Digits(exponent.digits))
    case Text(chars) => ValidChars(chars)
    case EmptyArray(space) => Space(space)
    case Array(elements) => ValidElements(elements)
    case EmptyObject(space) => Space(space)
    case Object(members) => ValidMembers(members)
  }

  predicate ValidElements(es: Elements) {
    Space(es.before) && Valid(es.value) && Space(es.after) &&
    (es.MoreElements? ==> ValidElements(es.rest))
  }

  predicate ValidMembers(ms: Members) {
    Space(ms.before) && ValidChars(ms.key) && Space(ms.colonBefore) && Space(ms.colonAfter) &&
    Valid(ms.value) && Space(ms.after) && (ms.MoreMembers? ==> ValidMembers(ms.rest))
  }

  predicate IsObject(v: Value) {
    v.EmptyObject? || v.Object?
  }

  // ---------- printing ----------

  function PrintSign(s: Sign): string {
    match s case NoSign => "" case Plus => "+" case Minus => "-"
  }

  function PrintExponent(e: Exponent): string {
    match e
    case NoExponent => ""
    case Exponent(upper, sign, digits) => (if upper then "E" else "e") + PrintSign(sign) + digits
  }

  function PrintNumber(v: Value): string
    requires v.Number?
  {
    (if v.negative then "-" else "") + v.whole +
    (if v.fraction.Some? then "." + v.fraction.value else "") + PrintExponent(v.exponent)
  }

  function PrintChar(c: StringChar): string {
    match c
    case Unescaped(u) => [u]
    case Short(e) => ['\\', e]
    case Hex(h) => ['\\', 'u'] + h
  }

  function PrintChars(chars: seq<StringChar>): string {
    if chars == [] then "" else PrintChar(chars[0]) + PrintChars(chars[1..])
  }

  function Quoted(chars: seq<StringChar>): string {
    "\"" + PrintChars(chars) + "\""
  }

  function Print(v: Value): string
    decreases v, 0
  {
    match v
    case Null => "null"
    case Bool(b) => if b then "true" else "false"
    case Number(_, _, _, _) => PrintNumber(v)
    case Text(chars) => Quoted(chars)
    case EmptyArray(space) => "[" + space + "]"
    case Array(elements) => "[" + PrintElements(elements) + "]"
    case EmptyObject(space) => "{" + space + "}"
    case Object(members) => "{" + PrintMembers(members) + "}"
  }

  function PrintElements(es: Elements): string
    decreases es, 2
  {
    es.before + Print(es.value) + es.after + MoreElementsText(es)
  }

  function MoreElementsText(es: Elements): string
    decreases es, 1
  {
    if es.MoreElements? then "," + PrintElements(es.rest) else ""
  }

  function Colon(ms: Members): string {
    ms.colonBefore + ":" + ms.colonAfter
  }

  function PrintMembers(ms: Members): string
    decreases ms, 2
  {
    ms.before + Quoted(ms.key) + Colon(ms) + Print(ms.value) + ms.after + MoreMembersText(ms)
  }

  function MoreMembersText(ms: Members): string
    decreases ms, 1
  {
    if ms.MoreMembers? then "," + PrintMembers(ms.rest) else ""
  }

  // ---------- a printed value in the brace grammar ----------

  predicate AllPlain(s: string) {
    forall k :: 0 <= k < |s| ==> IsPlain(s[k])
  }

  function PlainItems(s: string, rest: Items): Items {
    if s == "" then rest else Plain(s[0], PlainItems(s[1..], rest))
  }

  lemma {:induction false} PlainItemsRender(s: string, rest: Items)
    requires AllPlain(s) && WellFormed(rest)
    ensures WellFormed(PlainItems(s, rest)) && Render(PlainItems(s, rest)) == s + Render(rest)
  {
    if s == "" {
      assert s + Render(rest) == Render(rest);
    } else {
      PlainItemsRender(s[1..], rest);
      assert s + Render(rest) == [s[0]] + (s[1..] + Render(rest));
    }
  }

  /** A string body as the scanner reads it: \uXXXX is an escaped u and four ordinary characters. */
  function Units(chars: seq<StringChar>): seq<Unit> {
    if chars == [] then [] else UnitsOfChar(chars[0]) + Units(chars[1..])
  }

  function RawAll(h: string): seq<Unit> {
    if h == "" then [] else [Raw(h[0])] + RawAll(h[1..])
  }

  predicate UnitsOk(us: seq<Unit>) {
    forall k :: 0 <= k < |us| && us[k].Raw? ==> us[k].c != '"' && us[k].c != '\\'
  }

  lemma {:induction false} RenderUnitsConcat(a: seq<Unit>, b: seq<Unit>)
    ensures RenderUnits(a + b) == RenderUnits(a) + RenderUnits(b)
  {
    if a == [] {
      assert a + b == b;
    } else {
      assert (a + b)[1..] == a[1..] + b;
      RenderUnitsConcat(a[1..], b);
    }
  }

  lemma {:induction false} RawAllRender(h: string)
    requires forall k :: 0 <= k < |h| ==> HexDigit(h[k])
    ensures RenderUnits(RawAll(h)) == h && UnitsOk(RawAll(h))
  {
    if h != "" {
      RawAllRender(h[1..]);
      assert RawAll(h)[1..] == RawAll(h[1..]);
      assert h == [h[0]] + h[1..];
    }
  }

  function UnitsOfChar(c: StringChar): seq<Unit> {
    match c
    case Unescaped(u) => [Raw(u)]
    case Short(e) => [Escape(e)]
    case Hex(h) => [Escape('u')] + RawAll(h)
  }

  lemma CharRender(c: StringChar)
    requires ValidChar(c)
    ensures RenderUnits(UnitsOfChar(c)) == PrintChar(c) && UnitsOk(UnitsOfChar(c))
  {
    match c {
      case Unescaped(u) =>
        assert [Raw(u)][1..] == [];
      case Short(e) =>
        assert [Escape(e)][1..] == [];
      case Hex(h) =>
        RawAllRender(h);
        assert ([Escape('u')] + RawAll(h))[1..] == RawAll(h);
    }
  }

  lemma {:induction false} UnitsRender(chars: seq<StringChar>)
    requires ValidChars(chars)
    ensures RenderUnits(Units(chars)) == PrintChars(chars) && UnitsOk(Units(chars))
  {
    if chars != [] {
      hide RenderUnits, UnitsOfChar, PrintChar;
      UnitsRender(chars[1..]);
      CharRender(chars[0]);
      RenderUnitsConcat(UnitsOfChar(chars[0]), Units(chars[1..]));
    }
  }

  function QuotedItems(chars: seq<StringChar>, rest: Items): Items {
    Literal(Units(chars), rest)
  }

  lemma {:induction false} QuotedRender(chars: seq<StringChar>, rest: Items)
    requires ValidChars(chars) && WellFormed(rest)
    ensures WellFormed(QuotedItems(chars, rest))
    ensures Render(QuotedItems(chars, rest)) == Quoted(chars) + Render(rest)
  {
    UnitsRender(chars);
  }

  /** The items a value prints as, followed by `rest`. */
  function ItemsOf(v: Value, rest: Items): Items
    decreases v, 0
  {
    match v
    case Text(chars) => QuotedItems(chars, rest)
    case Array(elements) => Plain('[', ElementItems(elements, Plain(']', rest)))
    case EmptyObject(space) => Block(PlainItems(space, End), rest)
    case Object(members) => Block(MemberItems(members, End), rest)
    case _ => PlainItems(Print(v), rest)
  }

  function ElementItems(es: Elements, rest: Items): Items
    decreases es, 2
  {
    PlainItems(es.before, ItemsOf(es.value, PlainItems(es.after, NextElements(es, rest))))
  }

  function NextElements(es: Elements, rest: Items): Items
    decreases es, 1
  {
    if es.MoreElements? then Plain(',', ElementItems(es.rest, rest)) else rest
  }

  function MemberItems(ms: Members, rest: Items): Items
    decreases ms, 2
  {
    PlainItems(ms.before, QuotedItems(ms.key, PlainItems(Colon(ms),
      ItemsOf(ms.value, PlainItems(ms.after, NextMembers(ms, rest))))))
  }

  function NextMembers(ms: Members, rest: Items): Items
    decreases ms, 1
  {
    if ms.MoreMembers? then Plain(',', MemberItems(ms.rest, rest)) else rest
  }

  lemma {:induction false} PlainNumber(v: Value)
    requires v.Number? && Valid(v)
    ensures AllPlain(PrintNumber(v))
  {
    assert AllPlain(v.whole);
    assert AllPlain(if v.fraction.Some? then "." + v.fraction.value else "");
    assert AllPlain(PrintExponent(v.exponent));
  }

  lemma {:induction false} PlainValue(v: Value)
    requires Valid(v) && (v.Null? || v.Bool? || v.Number? || v.EmptyArray?)
    ensures AllPlain(Print(v))
  {
    hide PrintNumber;
    if v.Number? {
      PlainNumber(v);
    } else if v.EmptyArray? {
      assert AllPlain(v.space);
    }
  }

  lemma {:induction false} ScalarItems(v: Value, rest: Items)
    requires Valid(v) && WellFormed(rest) && (v.Null? || v.Bool? || v.Number? || v.EmptyArray?)
    ensures WellFormed(ItemsOf(v, rest)) && Render(ItemsOf(v, rest)) == Print(v) + Render(rest)
  {
    hide PlainItems, Print, Render;
    PlainValue(v);
    PlainItemsRender(Print(v), rest);
  }

  lemma {:induction false} BracedItems(inner: Items, text: string, rest: Items)
    requires WellFormed(inner) && WellFormed(rest) && Render(inner) == text
    ensures WellFormed(Block(inner, rest)) && Render(Block(inner, rest)) == "{" + text + "}" + Render(rest)
  {
  }

  lemma {:induction false} ValueItems(v: Value, rest: Items)
    requires Valid(v) && WellFormed(rest)
    ensures WellFormed(ItemsOf(v, rest)) && Render(ItemsOf(v, rest)) == Print(v) + Render(rest)
    decreases v, 0
  {
    hide PlainItems, ElementItems, MemberItems, QuotedItems, PrintElements, PrintMembers, Quoted;
    match v {
      case Text(chars) =>
        QuotedRender(chars, rest);
      case Array(elements) =>
        ArrayItems(elements, rest);
      case EmptyObject(space) =>
        PlainItemsRender(space, End);
        BracedItems(PlainItems(space, End), space, rest);
      case Object(members) =>
        MembersItems(members, End);
        BracedItems(MemberItems(members, End), PrintMembers(members), rest);
      case _ =>
        ScalarItems(v, rest);
    }
  }

  lemma {:induction false} ArrayItems(es: Elements, rest: Items)
    requires ValidElements(es) && WellFormed(rest)
    ensures var items := Plain('[', ElementItems(es, Plain(']', rest)));
      WellFormed(items) && Render(items) == "[" + PrintElements(es) + "]" + Render(rest)
    decreases es, 3
  {
    hide ElementItems, PrintElements;
    ElementsItems(es, Plain(']', rest));
    Associate3("[", PrintElements(es), "]", Render(rest));
  }

  lemma Associate3(a: string, b: string, c: string, r: string)
    ensures a + (b + (c + r)) == a + b + c + r
  {
  }

  lemma Associate4(a: string, b: string, c: string, d: string, r: string)
    ensures a + (b + (c + (d + r))) == a + b + c + d + r
  {
    Associate3(b, c, d, r);
    assert a + (b + c + d + r) == a + b + c + d + r;
  }

  lemma Associate6(a: string, b: string, c: string, d: string, e: string, f: string, r: string)
    ensures a + (b + (c + (d + (e + (f + r))))) == a + b + c + d + e + f + r
  {
    Associate3(d, e, f, r);
    Associate4(a, b, c, d + e + f, r);
    assert a + b + c + (d + e + f) == a + b + c + d + e + f;
  }

  lemma {:induction false} ElementsItems(es: Elements, rest: Items)
    requires ValidElements(es) && WellFormed(rest)
    ensures WellFormed(ElementItems(es, rest))
    ensures Render(ElementItems(es, rest)) == PrintElements(es) + Render(rest)
    decreases es, 2
  {
    hide PlainItems, ItemsOf, NextElements, MoreElementsText, Print, WellFormed, Render;
    var next := NextElements(es, rest);
    NextElementsItems(es, rest);
    PlainItemsRender(es.after, next);
    ValueItems(es.value, PlainItems(es.after, next));
    PlainItemsRender(es.before, ItemsOf(es.value, PlainItems(es.after, next)));
    Associate4(es.before, Print(es.value), es.after, MoreElementsText(es), Render(rest));
  }

  lemma {:induction false} CommaItems(items: Items, text: string, tail: string)
    requires WellFormed(items) && Render(items) == text + tail
    ensures WellFormed(Plain(',', items)) && Render(Plain(',', items)) == "," + text + tail
  {
  }

  lemma {:induction false} NextElementsItems(es: Elements, rest: Items)
    requires ValidElements(es) && WellFormed(rest)
    ensures WellFormed(NextElements(es, rest))
    ensures Render(NextElements(es, rest)) == MoreElementsText(es) + Render(rest)
    decreases es, 1
  {
    hide ElementItems, PrintElements, Render, WellFormed, Space, Valid;
    if es.MoreElements? {
      ElementsItems(es.rest, rest);
      CommaItems(ElementItems(es.rest, rest), PrintElements(es.rest), Render(rest));
    } else {
      assert "" + Render(rest) == Render(rest);
    }
  }

  lemma {:induction false} MembersItems(ms: Members, rest: Items)
    requires ValidMembers(ms) && WellFormed(rest)
    ensures WellFormed(MemberItems(ms, rest))
    ensures Render(MemberItems(ms, rest)) == PrintMembers(ms) + Render(rest)
    decreases ms, 2
  {
    hide PlainItems, ItemsOf, NextMembers, MoreMembersText, QuotedItems, Print, Quoted, Colon,
      WellFormed, Render;
    var next := NextMembers(ms, rest);
    NextMembersItems(ms, rest);
    PlainItemsRender(ms.after, next);
    var value := ItemsOf(ms.value, PlainItems(ms.after, next));
    ValueItems(ms.value, PlainItems(ms.after, next));
    ColonPlain(ms);
    PlainItemsRender(Colon(ms), value);
    QuotedRender(ms.key, PlainItems(Colon(ms), value));
    PlainItemsRender(ms.before, QuotedItems(ms.key, PlainItems(Colon(ms), value)));
    Associate6(ms.before, Quoted(ms.key), Colon(ms), Print(ms.value), ms.after,
      MoreMembersText(ms), Render(rest));
  }

  lemma ColonPlain(ms: Members)
    requires Space(ms.colonBefore) && Space(ms.colonAfter)
    ensures AllPlain(Colon(ms))
  {
  }

  lemma {:induction false} NextMembersItems(ms: Members, rest: Items)
    requires ValidMembers(ms) && WellFormed(rest)
    ensures WellFormed(NextMembers(ms, rest))
    ensures Render(NextMembers(ms, rest)) == MoreMembersText(ms) + Render(rest)
    decreases ms, 1
  {
    hide MemberItems, PrintMembers, Render, WellFormed, Space, Valid, ValidChars;
    if ms.MoreMembers? {
      MembersItems(ms.rest, rest);
      CommaItems(MemberItems(ms.rest, rest), PrintMembers(ms.rest), Render(rest));
    } else {
      assert "" + Render(rest) == Render(rest);
    }
  }

  /** Round trip: wherever a JSON object text stands in a longer text, whatever precedes and follows
      it, the scanner started at its first character extracts exactly that object text. */
  lemma {:induction false} ObjectExtracted(v: Value, text: string, start: nat)
    requires Valid(v) && IsObject(v) && start + |Print(v)| <= |text|
    requires text[start..start + |Print(v)|] == Print(v)
    ensures BlockAt(text, start, start + |Print(v)|)
  {
    var inner := ObjectBraced(v);
    hide BlockAt, Print, Valid, WellFormed;
    BracedIsBlock(text, start, inner);
  }

  /** An object prints as a braced block of well-formed items. */
  lemma {:induction false} ObjectBraced(v: Value) returns (inner: Items)
    requires Valid(v) && IsObject(v)
    ensures WellFormed(inner) && Print(v) == Braced(inner)
  {
    hide WellFormed, Render, PrintMembers, PlainItems, MemberItems;
    EndRenders();
    if v.EmptyObject? {
      inner := PlainItems(v.space, End);
      PlainItemsRender(v.space, End);
    } else {
      inner := MemberItems(v.members, End);
      MembersItems(v.members, End);
    }
  }

  lemma EndRenders()
    ensures WellFormed(End) && Render(End) == ""
  {
  }
}
